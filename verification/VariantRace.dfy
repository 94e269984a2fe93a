/**
 The three-way race of benches/flynn_axes.rs, `rayon_scope_cancel_atomic`: three estimates of pi
 race under one cancel flag, each storing into a cell of its own, and a cancelled third arm stores
 a placeholder for want of an estimate.
 */
module VariantRace {
  import opened Options

  /** Polls of the cancel flag: the fast series, the two arctangent series one after the other, the means. */
  const FAST_POLLS: nat := 32
  const FAITHFUL_POLLS: nat := 24 + 8
  const CORRECT_POLLS: nat := 6

  const FAST_TOLERANCE: real := 0.0001
  const FAITHFUL_TOLERANCE: real := 0.0000000001

  /** Pi, and what each arm comes to when it is not cancelled on the way. */
  datatype Entry = Entry(pi: real, fast: real, faithful: real, correct: real)

  function Distance(a: real, b: real): real {
    if a < b then b - a else a - b
  }

  function Checked(estimate: real, pi: real, tolerance: real): Option<real> {
    if Distance(estimate, pi) < tolerance then Some(estimate) else None
  }

  /** What the third arm stores: its estimate, or the constant it returns when it finds itself cancelled. */
  datatype Value = Computed(estimate: real) | Placeholder

  datatype Pc<T> = Polling(left: nat) | Storing(v: T) | Raising(v: T) | Finished

  datatype State = State(cancel: bool,
                         fast: Pc<Option<real>>, faithful: Pc<Option<real>>, correct: Pc<Value>,
                         fastCell: Option<Option<real>>, faithfulCell: Option<Option<real>>, correctCell: Option<Value>)

  datatype Arm = Fast | Faithful | Correct

  function Initial(): State {
    State(false, Polling(FAST_POLLS), Polling(FAITHFUL_POLLS), Polling(CORRECT_POLLS), None, None, None)
  }

  /** A poll: stop with `stopped` if cancelled, otherwise one poll fewer until the estimate is there. */
  function Polled<T>(cancel: bool, left: nat, stopped: T, estimate: T): Pc<T> {
    if left == 0 then Storing(estimate)
    else if cancel then Storing(stopped)
    else Polling(left - 1)
  }

  /** One atomic step of one arm: a poll, the store into its cell, or the raising of the flag. */
  function Step(e: Entry, s: State, arm: Arm): State {
    match arm
    case Fast =>
      (match s.fast
       case Polling(left) => s.(fast := Polled(s.cancel, left, None, Checked(e.fast, e.pi, FAST_TOLERANCE)))
       case Storing(v) => s.(fastCell := Some(v), fast := Raising(v))
       case Raising(v) => s.(cancel := s.cancel || v.Some?, fast := Finished)
       case Finished => s)
    case Faithful =>
      (match s.faithful
       case Polling(left) => s.(faithful := Polled(s.cancel, left, None, Checked(e.faithful, e.pi, FAITHFUL_TOLERANCE)))
       case Storing(v) => s.(faithfulCell := Some(v), faithful := Raising(v))
       case Raising(v) => s.(cancel := s.cancel || v.Some?, faithful := Finished)
       case Finished => s)
    case Correct =>
      (match s.correct
       case Polling(left) => s.(correct := Polled(s.cancel, left, Placeholder, Computed(e.correct)))
       case Storing(v) => s.(correctCell := Some(v), correct := Raising(v))
       case Raising(_) => s.(cancel := true, correct := Finished)
       case Finished => s)
  }

  // ----- what every schedule keeps ---------------------------------------------------------

  /** The fast arm, or the faithful one, has a tolerable estimate in its cell. */
  predicate EarlierStored(s: State) {
    (s.fastCell.Some? && s.fastCell.value.Some?) || (s.faithfulCell.Some? && s.faithfulCell.value.Some?)
  }

  predicate ArmInv(pc: Pc<Option<real>>, cell: Option<Option<real>>, whole: Option<real>) {
    match pc
    case Polling(_) => cell == None
    case Storing(v) => cell == None && (v == None || v == whole)
    case Raising(v) => cell == Some(v) && (v == None || v == whole)
    case Finished => cell.Some? && (cell.value == None || cell.value == whole)
  }

  predicate Inv(e: Entry, s: State) {
    && ArmInv(s.fast, s.fastCell, Checked(e.fast, e.pi, FAST_TOLERANCE))
    && ArmInv(s.faithful, s.faithfulCell, Checked(e.faithful, e.pi, FAITHFUL_TOLERANCE))
    && (match s.correct
        case Polling(_) => s.correctCell == None
        case Storing(v) => s.correctCell == None && ThirdInv(e, s, v)
        case Raising(v) => s.correctCell == Some(v) && ThirdInv(e, s, v)
        case Finished => s.correctCell.Some? && ThirdInv(e, s, s.correctCell.value))
    && (s.cancel ==> EarlierStored(s) || s.correct == Finished)
  }

  predicate ThirdInv(e: Entry, s: State, v: Value) {
    match v
    case Computed(x) => x == e.correct
    case Placeholder => EarlierStored(s)
  }

  lemma StepInv(e: Entry, s: State, arm: Arm)
    requires Inv(e, s)
    ensures Inv(e, Step(e, s, arm))
  {
  }

  ghost function Run(e: Entry, schedule: seq<Arm>): State {
    if schedule == [] then Initial()
    else Step(e, Run(e, schedule[..|schedule| - 1]), schedule[|schedule| - 1])
  }

  lemma {:induction false} RunInv(e: Entry, schedule: seq<Arm>)
    ensures Inv(e, Run(e, schedule))
  {
    if schedule != [] {
      RunInv(e, schedule[..|schedule| - 1]);
      StepInv(e, Run(e, schedule[..|schedule| - 1]), schedule[|schedule| - 1]);
    }
  }

  // ----- the selection ---------------------------------------------------------------------

  predicate AllFinished(s: State) {
    s.fast == Finished && s.faithful == Finished && s.correct == Finished
  }

  /** The fast cell's estimate, else the faithful cell's, else whatever the third cell holds; None would be a panic. */
  function Selected(s: State): Option<Value> {
    if s.fastCell.Some? && s.fastCell.value.Some? then Some(Computed(s.fastCell.value.value))
    else if s.faithfulCell.Some? && s.faithfulCell.value.Some? then Some(Computed(s.faithfulCell.value.value))
    else s.correctCell
  }

  /** A third arm that finds the flag up has been beaten by an estimate already in its cell. */
  lemma CancelSeenMeansBeaten(e: Entry, schedule: seq<Arm>)
    requires Run(e, schedule).cancel && Run(e, schedule).correct.Polling?
    ensures EarlierStored(Run(e, schedule))
  {
    RunInv(e, schedule);
  }

  /**
   Whatever the schedule, the value selected in the end is there, is not the placeholder, and is
   either an earlier arm's estimate within its tolerance or the third arm's run to the end.
   */
  lemma SelectionIsAnEstimate(e: Entry, schedule: seq<Arm>)
    requires AllFinished(Run(e, schedule))
    ensures var selected := Selected(Run(e, schedule));
            && selected.Some? && selected.value.Computed?
            && (|| (selected.value.estimate == e.fast && Distance(e.fast, e.pi) < FAST_TOLERANCE)
                || (selected.value.estimate == e.faithful && Distance(e.faithful, e.pi) < FAITHFUL_TOLERANCE)
                || selected.value.estimate == e.correct)
  {
    RunInv(e, schedule);
  }

  /** With no earlier estimate the third cell holds a finished one; the placeholder is only ever left beside an earlier estimate. */
  lemma PlaceholderIsNeverAlone(e: Entry, schedule: seq<Arm>)
    requires AllFinished(Run(e, schedule))
    ensures !EarlierStored(Run(e, schedule)) ==> Run(e, schedule).correctCell == Some(Computed(e.correct))
    ensures Run(e, schedule).correctCell == Some(Placeholder) ==> EarlierStored(Run(e, schedule))
  {
    RunInv(e, schedule);
  }

  // ----- the fast arm ----------------------------------------------------------------------

  /** The alternating series `fast_pi` adds up. */
  function Leibniz(terms: nat): real {
    if terms == 0 then 0.0
    else Leibniz(terms - 1) + (if (terms - 1) % 2 == 0 then 1.0 else -1.0) / (2.0 * (terms - 1) as real + 1.0)
  }

  lemma Difference(x: real, a: real, b: real)
    requires a > 0.0 && b > 0.0
    ensures a * b > 0.0 && x / a - x / b == x * (b - a) / (a * b)
  {
    var p, q := x / a, x / b;
    assert p * a == x && q * b == x;
    assert (p - q) * (a * b) == p * a * b - q * b * a;
  }

  lemma EightOver(product: real, c: real)
    requires c > 0.0 && product >= 16.0 * c
    ensures 8.0 / product <= 0.5 / c
  {
    var q := 0.5 / c;
    assert q * c == 0.5;
    assert q * product >= q * (16.0 * c);
  }

  lemma PairBound(m: real)
    requires m >= 1.0
    ensures 4.0 / (4.0 * m + 1.0) - 4.0 / (4.0 * m + 3.0) <= 0.5 / m - 0.5 / (m + 1.0)
  {
    var a, b, c := 4.0 * m + 1.0, 4.0 * m + 3.0, m * (m + 1.0);
    Difference(4.0, a, b);
    Difference(0.5, m, m + 1.0);
    assert a * b == 16.0 * c + 3.0;
    EightOver(a * b, c);
  }

  lemma {:induction false} LeibnizBelow(m: nat)
    requires m >= 1
    ensures 4.0 * Leibniz(2 * m) <= 8.0 / 3.0 + 0.5 - 0.5 / m as real
  {
    if m == 1 {
      assert Leibniz(1) == 1.0;
      assert Leibniz(2) == 1.0 - 1.0 / 3.0;
    } else {
      LeibnizBelow(m - 1);
      var k := (m - 1) as real;
      PairBound(k);
      assert Leibniz(2 * m) == Leibniz(2 * m - 1) - 1.0 / (4.0 * k + 3.0);
      assert Leibniz(2 * m - 1) == Leibniz(2 * (m - 1)) + 1.0 / (4.0 * k + 1.0);
    }
  }

  /** Thirty-two terms never come within the fast arm's own tolerance, so that arm never wins. */
  lemma FastArmNeverStores(e: Entry, schedule: seq<Arm>)
    requires 3.1415 < e.pi < 3.1416 && e.fast == 4.0 * Leibniz(FAST_POLLS)
    ensures Checked(e.fast, e.pi, FAST_TOLERANCE) == None
    ensures Run(e, schedule).fastCell.Some? ==> Run(e, schedule).fastCell.value == None
  {
    LeibnizBelow(16);
    RunInv(e, schedule);
  }
}
