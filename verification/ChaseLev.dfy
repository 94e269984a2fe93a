/**
 The work-stealing deque of src/sched/chase_lev_local.rs: one owner pushes and pops at the bottom and
 any number of thieves steal at the top. Each load, store, slot access and compare-exchange is one
 step, in one order for all (sequentially consistent); only the winner of `top` keeps what it copied.
 */
module ChaseLev {

  /** What a slot holds. Jobs may be equal; each push counts. */
  type Job = nat

  /** Where the owner is in `push` or `pop`; b is the index it works on. */
  datatype OwnerPc =
    | Resting
    | PushTop(job: Job, b: int)      // about to load `top`
    | PushWrite(job: Job, b: int)    // about to write the slot
    | PushStore(job: Job, b: int)    // about to store b + 1 in `bottom`
    | PopStore(b: int)               // about to store b in `bottom`
    | PopTop(b: int)                 // about to load `top`
    | PopRead(b: int, last: bool)    // about to copy the slot; `last` when `top` was b
    | PopCas(b: int, job: Job)       // about to compare-exchange `top`
    | PopRestore(b: int)             // about to store b + 1 in `bottom`

  /** Where a thief is in `steal`; t is what it loaded of `top`. */
  datatype ThiefPc =
    | Away
    | BottomDue(t: nat)              // about to load `bottom`
    | SlotDue(t: nat)                // about to copy the slot
    | CasDue(t: nat, job: Job)       // about to compare-exchange `top`

  /** `pushed` lists the jobs stored, `taken` those that a `pop` or a `steal` succeeded with, as they were. */
  datatype State = State(top: nat, bottom: int, buffer: seq<Job>, owner: OwnerPc, thieves: seq<ThiefPc>,
                         pushed: seq<Job>, taken: seq<Job>)

  datatype Action = Push(job: Job) | Pop | OwnerTurn | Steal(thief: nat) | ThiefTurn(thief: nat)

  /** The slots start out with whatever the memory held. */
  function Initial(memory: seq<Job>, thieves: nat): State {
    State(0, 0, memory, Resting, seq(thieves, _ => Away), [], [])
  }

  function Slot(capacity: nat, k: int): (i: nat)
    requires capacity > 0
    ensures i < capacity
  {
    k % capacity
  }

  function At(buffer: seq<Job>, k: int): Job
    requires buffer != []
  {
    buffer[Slot(|buffer|, k)]
  }

  // ----- the steps -------------------------------------------------------------------------

  function Moved(s: State): (s': State)
    requires s.buffer != []
    ensures |s'.buffer| == |s.buffer|
  {
    match s.owner
    case Resting => s
    case PushTop(job, b) => s.(owner := if b - s.top >= |s.buffer| then Resting else PushWrite(job, b))
    case PushWrite(job, b) => s.(buffer := s.buffer[Slot(|s.buffer|, b) := job], owner := PushStore(job, b))
    case PushStore(job, b) => s.(bottom := b + 1, owner := Resting, pushed := s.pushed + [job])
    case PopStore(b) => s.(bottom := b, owner := PopTop(b))
    case PopTop(b) => s.(owner := if s.top > b then PopRestore(b) else PopRead(b, s.top == b))
    case PopRead(b, last) =>
      var job := At(s.buffer, b);
      if last then s.(owner := PopCas(b, job)) else s.(owner := Resting, taken := s.taken + [job])
    case PopCas(b, job) =>
      if s.top == b then s.(top := s.top + 1, owner := PopRestore(b), taken := s.taken + [job])
      else s.(owner := PopRestore(b))
    case PopRestore(b) => s.(bottom := b + 1, owner := Resting)
  }

  function ThiefAt(s: State, i: nat, pc: ThiefPc): State
    requires i < |s.thieves|
  {
    s.(thieves := s.thieves[i := pc])
  }

  function Stole(s: State, i: nat): (s': State)
    requires s.buffer != [] && i < |s.thieves|
    ensures |s'.buffer| == |s.buffer|
  {
    match s.thieves[i]
    case Away => s
    case BottomDue(t) => ThiefAt(s, i, if t >= s.bottom then Away else SlotDue(t))
    case SlotDue(t) => ThiefAt(s, i, CasDue(t, At(s.buffer, t)))
    case CasDue(t, job) =>
      if s.top == t then ThiefAt(s, i, Away).(top := t + 1, taken := s.taken + [job]) else ThiefAt(s, i, Away)
  }

  function Step(s: State, a: Action): (s': State)
    requires s.buffer != []
    ensures |s'.buffer| == |s.buffer|
  {
    match a
    case Push(job) => if s.owner == Resting then s.(owner := PushTop(job, s.bottom)) else s
    case Pop => if s.owner == Resting then s.(owner := PopStore(s.bottom - 1)) else s
    case OwnerTurn => Moved(s)
    case Steal(i) => if i < |s.thieves| && s.thieves[i] == Away then ThiefAt(s, i, BottomDue(s.top)) else s
    case ThiefTurn(i) => if i < |s.thieves| then Stole(s, i) else s
  }

  // ----- the deque the counters stand for --------------------------------------------------

  /** The jobs at indices lo..hi. */
  function Jobs(buffer: seq<Job>, lo: int, hi: int): (jobs: seq<Job>)
    requires buffer != []
    ensures |jobs| == if hi > lo then hi - lo else 0
    decreases hi - lo
  {
    if hi <= lo then [] else Jobs(buffer, lo, hi - 1) + [At(buffer, hi - 1)]
  }

  /** One past the last job: `bottom`, but for a pop that has lowered it and not yet won the job or lost it. */
  function End(s: State): int {
    match s.owner
    case PopTop(b) => b + 1
    case PopRead(b, last) => if last then b + 1 else b
    case PopCas(b, _) => b + 1
    case PopRestore(b) => b + 1
    case _ => s.bottom
  }

  function Contents(s: State): seq<Job>
    requires s.buffer != []
  {
    Jobs(s.buffer, s.top, End(s))
  }

  /** The job a pop has won and not copied yet. */
  function Hand(s: State): seq<Job>
    requires s.buffer != []
  {
    if s.owner.PopRead? && !s.owner.last then [At(s.buffer, s.owner.b)] else []
  }

  lemma SlotsApart(capacity: nat, i: int, j: int)
    requires capacity > 0 && i < j < i + capacity
    ensures Slot(capacity, i) != Slot(capacity, j)
  {
    var qi, qj := i / capacity, j / capacity;
    assert i == qi * capacity + i % capacity && j == qj * capacity + j % capacity;
    assert j - i == (qj - qi) * capacity + (j % capacity - i % capacity);
    Multiples(capacity, qj - qi);
  }

  lemma Multiples(capacity: nat, q: int)
    ensures q >= 1 ==> q * capacity >= capacity
    ensures q <= 0 ==> q * capacity <= 0
  {
  }

  /** A write to index k leaves the jobs before it alone, if they are fewer than the slots. */
  lemma {:induction false} JobsBesideWrite(buffer: seq<Job>, lo: int, hi: int, k: int, job: Job)
    requires buffer != [] && lo <= hi <= k < lo + |buffer|
    ensures Jobs(buffer[Slot(|buffer|, k) := job], lo, hi) == Jobs(buffer, lo, hi)
    decreases hi - lo
  {
    if lo < hi {
      JobsBesideWrite(buffer, lo, hi - 1, k, job);
      SlotsApart(|buffer|, hi - 1, k);
    }
  }

  lemma {:induction false} JobsFromFirst(buffer: seq<Job>, lo: int, hi: int)
    requires buffer != [] && lo < hi
    ensures Jobs(buffer, lo, hi) == [At(buffer, lo)] + Jobs(buffer, lo + 1, hi)
    decreases hi - lo
  {
    if lo + 1 < hi {
      JobsFromFirst(buffer, lo, hi - 1);
    }
  }

  // ----- what every run keeps --------------------------------------------------------------

  predicate OwnerInv(s: State)
    requires s.buffer != []
  {
    match s.owner
    case Resting => s.bottom >= 0
    case PushTop(_, b) => s.bottom == b
    case PushWrite(_, b) => s.bottom == b < s.top + |s.buffer|
    case PushStore(job, b) => s.bottom == b < s.top + |s.buffer| && At(s.buffer, b) == job
    case PopStore(b) => s.bottom == b + 1 >= 0
    case PopTop(b) => s.bottom == b
    case PopRead(b, last) => s.bottom == b && (last ==> b <= s.top)
    case PopCas(b, job) => s.bottom == b <= s.top && (s.top == b ==> At(s.buffer, b) == job)
    case PopRestore(b) => s.bottom == b == s.top - 1
  }

  /** There are as many jobs as fit the slots. */
  predicate SizeInv(s: State) {
    s.top <= End(s) <= s.top + |s.buffer|
  }

  /** What a thief still in the race has copied is the first job. */
  predicate ThiefInv(s: State, pc: ThiefPc)
    requires s.buffer != []
  {
    match pc
    case Away => true
    case BottomDue(t) => t <= s.top
    case SlotDue(t) => t <= s.top && (t == s.top ==> t < End(s))
    case CasDue(t, job) => t <= s.top && (t == s.top ==> t < End(s) && At(s.buffer, t) == job)
  }

  ghost predicate ThievesInv(s: State)
    requires s.buffer != []
  {
    forall i: nat | i < |s.thieves| :: ThiefInv(s, s.thieves[i])
  }

  /** Every job pushed is gone or still there, as often as it was pushed. */
  ghost predicate Conserved(pushed: seq<Job>, gone: seq<Job>, there: seq<Job>) {
    multiset(pushed) == multiset(gone) + multiset(there)
  }

  ghost predicate ConservedInv(s: State)
    requires s.buffer != []
  {
    Conserved(s.pushed, s.taken + Hand(s), Contents(s))
  }

  ghost predicate Inv(s: State)
    requires s.buffer != []
  {
    OwnerInv(s) && SizeInv(s) && ThievesInv(s) && ConservedInv(s)
  }

  // ----- what each step does to the deque --------------------------------------------------

  /** The step stores the job of a push. */
  predicate StoresJob(s: State, a: Action) {
    a.OwnerTurn? && s.owner.PushStore?
  }

  /** The step wins the last job for the owner, without a race or by winning it. */
  predicate WinsLast(s: State, a: Action) {
    a.OwnerTurn? && ((s.owner.PopTop? && s.top < s.owner.b) || (s.owner.PopCas? && s.top == s.owner.b))
  }

  /** The step wins the first job for a thief. */
  predicate WinsFirst(s: State, a: Action) {
    && a.ThiefTurn? && a.thief < |s.thieves|
    && s.thieves[a.thief].CasDue? && s.thieves[a.thief].t == s.top
  }

  lemma OwnerStep(s: State)
    requires s.buffer != [] && OwnerInv(s) && SizeInv(s)
    ensures OwnerInv(Moved(s)) && SizeInv(Moved(s))
  {
  }

  /** A step of the owner's leaves what thieves in the race have copied alone. */
  lemma OwnerKeepsThief(s: State, pc: ThiefPc)
    requires s.buffer != [] && OwnerInv(s) && SizeInv(s) && ThiefInv(s, pc)
    ensures ThiefInv(Moved(s), pc)
  {
    if s.owner.PushWrite? && pc.CasDue? && pc.t == s.top {
      SlotsApart(|s.buffer|, pc.t, s.owner.b);
    }
  }

  lemma OwnerContents(s: State)
    requires s.buffer != [] && OwnerInv(s) && SizeInv(s)
    ensures var s', n := Moved(s), |Contents(s)|;
            && (StoresJob(s, OwnerTurn) ==> Contents(s') == Contents(s) + [s.owner.job])
            && (WinsLast(s, OwnerTurn) ==> n > 0 && Contents(s') == Contents(s)[..n - 1])
            && (!StoresJob(s, OwnerTurn) && !WinsLast(s, OwnerTurn) ==> Contents(s') == Contents(s))
  {
    if s.owner.PushWrite? {
      JobsBesideWrite(s.buffer, s.top, s.owner.b, s.owner.b, s.owner.job);
    }
  }

  /** What the owner has in hand and what it takes: the job won, and nothing else. */
  lemma OwnerTakes(s: State)
    requires s.buffer != [] && OwnerInv(s) && SizeInv(s)
    ensures var s', n := Moved(s), |Contents(s)|;
            && (WinsLast(s, OwnerTurn) ==> n > 0 && s'.taken + Hand(s') == s.taken + [Contents(s)[n - 1]])
            && (!WinsLast(s, OwnerTurn) ==> s'.taken + Hand(s') == s.taken + Hand(s))
            && s'.pushed == if StoresJob(s, OwnerTurn) then s.pushed + [s.owner.job] else s.pushed
  {
  }

  lemma PushConserves(pushed: seq<Job>, gone: seq<Job>, there: seq<Job>, job: Job)
    requires Conserved(pushed, gone, there)
    ensures Conserved(pushed + [job], gone, there + [job])
  {
  }

  lemma LastConserves(pushed: seq<Job>, gone: seq<Job>, there: seq<Job>)
    requires Conserved(pushed, gone, there) && there != []
    ensures Conserved(pushed, gone + [there[|there| - 1]], there[..|there| - 1])
  {
    assert there == there[..|there| - 1] + [there[|there| - 1]];
  }

  lemma FirstConserves(pushed: seq<Job>, taken: seq<Job>, hand: seq<Job>, job: Job, rest: seq<Job>)
    requires Conserved(pushed, taken + hand, [job] + rest)
    ensures Conserved(pushed, taken + [job] + hand, rest)
  {
  }

  lemma OwnerConserves(s: State)
    requires s.buffer != [] && OwnerInv(s) && SizeInv(s) && ConservedInv(s)
    ensures ConservedInv(Moved(s))
  {
    OwnerContents(s);
    OwnerTakes(s);
    if WinsLast(s, OwnerTurn) {
      LastConserves(s.pushed, s.taken + Hand(s), Contents(s));
      assert Hand(s) == [] && s.taken + Hand(s) == s.taken;
    } else if StoresJob(s, OwnerTurn) {
      PushConserves(s.pushed, s.taken + Hand(s), Contents(s), s.owner.job);
    }
  }

  // ----- thieves ---------------------------------------------------------------------------

  lemma ThiefKeepsOwner(s: State, i: nat)
    requires s.buffer != [] && OwnerInv(s) && SizeInv(s) && ThievesInv(s) && i < |s.thieves|
    ensures OwnerInv(Stole(s, i)) && SizeInv(Stole(s, i))
  {
    assert ThiefInv(s, s.thieves[i]);
  }

  lemma ThiefKeepsThieves(s: State, i: nat)
    requires s.buffer != [] && OwnerInv(s) && SizeInv(s) && ThievesInv(s) && i < |s.thieves|
    ensures ThievesInv(Stole(s, i))
  {
    var s' := Stole(s, i);
    forall k: nat | k < |s'.thieves|
      ensures ThiefInv(s', s'.thieves[k])
    {
      assert ThiefInv(s, s.thieves[k]);
    }
  }

  lemma ThiefContents(s: State, i: nat)
    requires s.buffer != [] && SizeInv(s) && ThievesInv(s) && i < |s.thieves|
    ensures var s' := Stole(s, i);
            && s'.pushed == s.pushed && Hand(s') == Hand(s)
            && (WinsFirst(s, ThiefTurn(i)) ==>
                  && Contents(s) == [s.thieves[i].job] + Contents(s') && s'.taken == s.taken + [s.thieves[i].job])
            && (!WinsFirst(s, ThiefTurn(i)) ==> Contents(s') == Contents(s) && s'.taken == s.taken)
  {
    assert ThiefInv(s, s.thieves[i]);
    if WinsFirst(s, ThiefTurn(i)) {
      JobsFromFirst(s.buffer, s.top, End(s));
    }
  }

  lemma ThiefConserves(s: State, i: nat)
    requires s.buffer != [] && SizeInv(s) && ThievesInv(s) && ConservedInv(s) && i < |s.thieves|
    ensures ConservedInv(Stole(s, i))
  {
    ThiefContents(s, i);
    if WinsFirst(s, ThiefTurn(i)) {
      FirstConserves(s.pushed, s.taken, Hand(s), s.thieves[i].job, Contents(Stole(s, i)));
    }
  }

  // ----- runs ------------------------------------------------------------------------------

  lemma OwnerKeepsThieves(s: State)
    requires s.buffer != [] && OwnerInv(s) && SizeInv(s) && ThievesInv(s)
    ensures Moved(s).thieves == s.thieves && ThievesInv(Moved(s))
  {
    forall i: nat | i < |s.thieves|
      ensures ThiefInv(Moved(s), s.thieves[i])
    {
      OwnerKeepsThief(s, s.thieves[i]);
    }
  }

  lemma OwnerTurnInv(s: State)
    requires s.buffer != [] && Inv(s)
    ensures Inv(Moved(s))
  {
    OwnerStep(s);
    OwnerConserves(s);
    OwnerKeepsThieves(s);
  }

  lemma ThiefTurnInv(s: State, i: nat)
    requires s.buffer != [] && Inv(s) && i < |s.thieves|
    ensures Inv(Stole(s, i))
  {
    ThiefKeepsOwner(s, i);
    ThiefKeepsThieves(s, i);
    ThiefConserves(s, i);
  }

  /** The load that starts a call. */
  lemma StartContents(s: State, a: Action)
    requires s.buffer != [] && (a.Push? || a.Pop? || a.Steal?)
    ensures var s' := Step(s, a);
            && s'.buffer == s.buffer && s'.pushed == s.pushed && s'.taken == s.taken
            && s'.top == s.top && End(s') == End(s) && Hand(s') == Hand(s)
  {
  }

  lemma StartThieves(s: State, a: Action)
    requires s.buffer != [] && ThievesInv(s) && (a.Push? || a.Pop? || a.Steal?)
    ensures ThievesInv(Step(s, a))
  {
    StartContents(s, a);
    var s' := Step(s, a);
    forall k: nat | k < |s'.thieves|
      ensures ThiefInv(s', s'.thieves[k])
    {
      assert ThiefInv(s, s.thieves[k]);
    }
  }

  lemma StartOwner(s: State, a: Action)
    requires s.buffer != [] && OwnerInv(s) && (a.Push? || a.Pop? || a.Steal?)
    ensures OwnerInv(Step(s, a))
  {
  }

  lemma StepInv(s: State, a: Action)
    requires s.buffer != [] && Inv(s)
    ensures Inv(Step(s, a))
  {
    match a
    case OwnerTurn => OwnerTurnInv(s);
    case ThiefTurn(i) => if i < |s.thieves| { ThiefTurnInv(s, i); }
    case _ =>
      StartContents(s, a);
      StartThieves(s, a);
      StartOwner(s, a);
  }

  function Run(memory: seq<Job>, thieves: nat, schedule: seq<Action>): (s: State)
    requires memory != []
    ensures |s.buffer| == |memory|
  {
    if schedule == [] then Initial(memory, thieves)
    else Step(Run(memory, thieves, schedule[..|schedule| - 1]), schedule[|schedule| - 1])
  }

  lemma {:induction false} RunInv(memory: seq<Job>, thieves: nat, schedule: seq<Action>)
    requires memory != []
    ensures Inv(Run(memory, thieves, schedule))
  {
    if schedule != [] {
      RunInv(memory, thieves, schedule[..|schedule| - 1]);
      StepInv(Run(memory, thieves, schedule[..|schedule| - 1]), schedule[|schedule| - 1]);
    }
  }

  // ----- the main results ------------------------------------------------------------------

  /** No two jobs are equal. */
  predicate AllDifferent(jobs: seq<Job>) {
    forall i: nat, j: nat | i < j < |jobs| :: jobs[i] != jobs[j]
  }

  lemma DifferentIff(jobs: seq<Job>)
    ensures AllDifferent(jobs) <==> forall job: Job :: multiset(jobs)[job] <= 1
  {
    if forall job: Job :: multiset(jobs)[job] <= 1 {
      forall i: nat, j: nat | i < j < |jobs|
        ensures jobs[i] != jobs[j]
      {
        if jobs[i] == jobs[j] {
          TwoPlaces(jobs, i, j);
        }
      }
    }
    if AllDifferent(jobs) {
      forall job: Job
        ensures multiset(jobs)[job] <= 1
      {
        OncePerJob(jobs, job);
      }
    }
  }

  lemma TwoPlaces(jobs: seq<Job>, i: nat, j: nat)
    requires i < j < |jobs| && jobs[i] == jobs[j]
    ensures multiset(jobs)[jobs[i]] >= 2
  {
    assert jobs == jobs[..j] + jobs[j..];
    assert jobs[..j][i] in multiset(jobs[..j]) && jobs[j..][0] in multiset(jobs[j..]);
  }

  lemma {:induction false} OncePerJob(jobs: seq<Job>, job: Job)
    requires AllDifferent(jobs)
    ensures multiset(jobs)[job] <= 1
  {
    if jobs != [] {
      var n := |jobs| - 1;
      OncePerJob(jobs[..n], job);
      assert jobs == jobs[..n] + [jobs[n]];
      if job == jobs[n] {
        assert job !in jobs[..n];
      }
    }
  }

  /**
   In every interleaving each job pushed is in exactly one place: taken by one pop or one steal, won
   by a pop that has not returned, or still in the deque. Jobs that were pushed once are taken once.
   */
  lemma TakenOnce(memory: seq<Job>, thieves: nat, schedule: seq<Action>)
    requires memory != []
    ensures var s := Run(memory, thieves, schedule);
            && multiset(s.pushed) == multiset(s.taken + Hand(s) + Contents(s))
            && (AllDifferent(s.pushed) ==> AllDifferent(s.taken + Hand(s) + Contents(s)))
  {
    RunInv(memory, thieves, schedule);
    var s := Run(memory, thieves, schedule);
    assert multiset(s.taken + Hand(s) + Contents(s)) == multiset(s.taken + Hand(s)) + multiset(Contents(s));
    DifferentIff(s.pushed);
    DifferentIff(s.taken + Hand(s) + Contents(s));
  }

  /** Once the owner is between calls and finds the counters level, every job pushed has been taken, and nothing else. */
  lemma AllTakenWhenLevel(memory: seq<Job>, thieves: nat, schedule: seq<Action>)
    requires memory != [] && Run(memory, thieves, schedule).owner == Resting
    requires Run(memory, thieves, schedule).bottom <= Run(memory, thieves, schedule).top
    ensures multiset(Run(memory, thieves, schedule).pushed) == multiset(Run(memory, thieves, schedule).taken)
  {
    var s := Run(memory, thieves, schedule);
    TakenOnce(memory, thieves, schedule);
    assert s.taken + Hand(s) + Contents(s) == s.taken;
  }

  /** What each step of each run is to the deque, and to what has gone from it. */
  ghost predicate IsDequeStep(s: State, a: Action)
    requires s.buffer != []
  {
    var s', n := Step(s, a), |Contents(s)|;
    var gone, gone' := s.taken + Hand(s), s'.taken + Hand(s');
    if StoresJob(s, a) then
      Contents(s') == Contents(s) + [s.owner.job] && gone' == gone && s'.pushed == s.pushed + [s.owner.job]
    else if WinsLast(s, a) then
      n > 0 && Contents(s') == Contents(s)[..n - 1] && gone' == gone + [Contents(s)[n - 1]] && s'.pushed == s.pushed
    else if WinsFirst(s, a) then
      n > 0 && Contents(s') == Contents(s)[1..] && s'.taken == s.taken + [Contents(s)[0]] && Hand(s') == Hand(s)
      && s'.pushed == s.pushed
    else
      Contents(s') == Contents(s) && gone' == gone && s'.pushed == s.pushed
  }

  lemma OwnerIsDequeStep(s: State)
    requires s.buffer != [] && OwnerInv(s) && SizeInv(s)
    ensures IsDequeStep(s, OwnerTurn)
  {
    OwnerContents(s);
    OwnerTakes(s);
  }

  lemma ThiefIsDequeStep(s: State, i: nat)
    requires s.buffer != [] && SizeInv(s) && ThievesInv(s) && i < |s.thieves|
    ensures IsDequeStep(s, ThiefTurn(i))
  {
    ThiefContents(s, i);
    if WinsFirst(s, ThiefTurn(i)) {
      assert Contents(s)[1..] == Contents(Stole(s, i));
    }
  }

  lemma StartIsDequeStep(s: State, a: Action)
    requires s.buffer != [] && (a.Push? || a.Pop? || a.Steal?)
    ensures IsDequeStep(s, a)
  {
    StartContents(s, a);
  }

  /**
   The counters and the slots are a double-ended queue: a push adds at one end, a pop takes from that
   end and a steal from the other, each in one step, and no other step changes it.
   */
  lemma StepIsDequeStep(memory: seq<Job>, thieves: nat, schedule: seq<Action>, a: Action)
    requires memory != []
    ensures IsDequeStep(Run(memory, thieves, schedule), a)
  {
    RunInv(memory, thieves, schedule);
    var s := Run(memory, thieves, schedule);
    match a
    case OwnerTurn => OwnerIsDequeStep(s);
    case ThiefTurn(i) => if i < |s.thieves| { ThiefIsDequeStep(s, i); }
    case _ => StartIsDequeStep(s, a);
  }

  /** A push is refused exactly when, at its load of `top`, there is a job for every slot. */
  lemma PushRefusedIff(s: State)
    requires s.buffer != [] && Inv(s) && s.owner.PushTop?
    ensures Moved(s).owner == Resting <==> |Contents(s)| == |s.buffer|
  {
  }

  /** A pop goes away empty exactly when, at its load or at its lost race, there is no job. */
  lemma PopEmptyIff(s: State)
    requires s.buffer != [] && Inv(s) && (s.owner.PopTop? || s.owner.PopCas?)
    ensures s.owner.PopTop? ==> (Moved(s).owner.PopRestore? <==> Contents(s) == [])
    ensures s.owner.PopCas? ==> (Moved(s).taken == s.taken <==> Contents(s) == [])
  {
  }

  /** A steal finds nothing only when there is no job, or the owner is at the last one. */
  lemma StealEmptyMeans(s: State, i: nat)
    requires s.buffer != [] && Inv(s) && i < |s.thieves| && s.thieves[i].BottomDue? && Stole(s, i).thieves[i] == Away
    ensures |Contents(s)| <= 1
    ensures Contents(s) != [] ==> s.owner.PopTop? || s.owner.PopRead? || s.owner.PopCas?
  {
    assert ThiefInv(s, s.thieves[i]);
  }

  /** `top` moves by a compare-exchange, whose winner takes a job. */
  lemma StepTakes(s: State, a: Action)
    requires s.buffer != []
    ensures 0 <= Step(s, a).top - s.top <= |Step(s, a).taken| - |s.taken|
  {
  }

  /** Each time `top` moves somebody has taken a job, ... */
  lemma {:induction false} TopCounts(memory: seq<Job>, thieves: nat, schedule: seq<Action>, later: seq<Action>)
    requires memory != []
    ensures var s, s' := Run(memory, thieves, schedule), Run(memory, thieves, schedule + later);
            0 <= s'.top - s.top <= |s'.taken| - |s.taken|
  {
    if later == [] {
      assert schedule + later == schedule;
    } else {
      var n := |later| - 1;
      TopCounts(memory, thieves, schedule, later[..n]);
      assert (schedule + later)[..|schedule + later| - 1] == schedule + later[..n];
      StepTakes(Run(memory, thieves, schedule + later[..n]), later[n]);
    }
  }

  /** ... so a steal told to retry has lost to one: since `top` was what it loaded, another job has been taken. */
  lemma RetryMeansTaken(memory: seq<Job>, thieves: nat, schedule: seq<Action>, later: seq<Action>, i: nat)
    requires memory != [] && i < |Run(memory, thieves, schedule + later).thieves|
    requires Run(memory, thieves, schedule + later).thieves[i].CasDue?
    requires Run(memory, thieves, schedule + later).thieves[i].t == Run(memory, thieves, schedule).top
    ensures var s, s' := Run(memory, thieves, schedule), Run(memory, thieves, schedule + later);
            !WinsFirst(s', ThiefTurn(i)) ==> |s'.taken| > |s.taken|
  {
    TopCounts(memory, thieves, schedule, later);
    RunInv(memory, thieves, schedule + later);
    var s' := Run(memory, thieves, schedule + later);
    assert ThiefInv(s', s'.thieves[i]);
  }

  // ----- one call at a time ----------------------------------------------------------------

  datatype Outcome = Success(job: Job) | Empty | Retry

  /** The deque with nobody else at work. */
  class Deque {
    const buffer: array<Job>
    var top: nat
    var bottom: int

    ghost predicate Valid()
      reads this, buffer
    {
      buffer.Length > 0 && top <= bottom <= top + buffer.Length
    }

    ghost function Held(): seq<Job>
      reads this, buffer
      requires Valid()
    {
      Jobs(buffer[..], top, bottom)
    }

    constructor (capacity: nat)
      requires capacity > 0
      ensures Valid() && fresh(buffer) && buffer.Length == capacity && Held() == []
    {
      buffer := new Job[capacity];
      top, bottom := 0, 0;
    }

    /** At capacity the job is handed back; else it is the last one. */
    method Push(job: Job) returns (ok: bool)
      requires Valid()
      modifies this`bottom, buffer
      ensures Valid() && ok == (|old(Held())| < buffer.Length)
      ensures Held() == if ok then old(Held()) + [job] else old(Held())
    {
      var b := bottom;
      if b - top >= buffer.Length {
        return false;
      }
      JobsBesideWrite(buffer[..], top, b, b, job);
      ghost var before := buffer[..];
      buffer[Slot(buffer.Length, b)] := job;
      assert buffer[..] == before[Slot(buffer.Length, b) := job];
      bottom := b + 1;
      return true;
    }

    method Pop() returns (r: Outcome)
      requires Valid()
      modifies this
      ensures Valid() && buffer[..] == old(buffer[..])
      ensures old(Held()) == [] ==> r == Empty && Held() == []
      ensures old(Held()) != [] ==>
                r == Success(old(Held())[|old(Held())| - 1]) && Held() == old(Held())[..|old(Held())| - 1]
    {
      var b := bottom - 1;
      bottom := b;
      var t := top;
      if t > b {
        bottom := b + 1;
        return Empty;
      }
      var item := buffer[Slot(buffer.Length, b)];
      if t < b {
        return Success(item);
      }
      top := t + 1;
      bottom := b + 1;
      return Success(item);
    }

    /** With nobody to lose to, a steal is never told to retry. */
    method Steal() returns (r: Outcome)
      requires Valid()
      modifies this`top
      ensures Valid()
      ensures old(Held()) == [] ==> r == Empty && Held() == []
      ensures old(Held()) != [] ==> r == Success(old(Held())[0]) && Held() == old(Held())[1..]
    {
      var t, b := top, bottom;
      if t >= b {
        return Empty;
      }
      JobsFromFirst(buffer[..], t, b);
      var item := buffer[Slot(buffer.Length, t)];
      top := t + 1;
      return Success(item);
    }

    /** What the drop finds unclaimed: every job held, once, first to last. */
    method Unclaimed() returns (jobs: seq<Job>)
      requires Valid()
      ensures jobs == Held()
    {
      jobs := [];
      var i: int := top;
      while i < bottom
        invariant top <= i <= bottom && jobs == Jobs(buffer[..], top, i)
      {
        jobs := jobs + [buffer[Slot(buffer.Length, i)]];
        i := i + 1;
      }
    }
  }
}
