/**
 The closing report of examples/class_migration_under_load.rs: for every foreign-load level, in
 half-core steps, what the rows at or below it say, and the two verdicts drawn from the levels.
 */
module LevelSweep {
  import opened Options

  datatype WorkloadClass = Streaming | Other(name: string)

  datatype Phase = Before | Load | After

  datatype CpuContext = Measured(busy: real, own: real) | Unavailable(reason: string)

  datatype Row = Row(phase: Phase, learned: Option<WorkloadClass>, cpu: CpuContext)

  /** The load no part of the run produced. */
  function Foreign(row: Row): real
    requires row.cpu.Measured?
  {
    row.cpu.busy - row.cpu.own
  }

  predicate AnyMeasured(rows: seq<Row>) {
    exists i: nat :: i < |rows| && rows[i].cpu.Measured?
  }

  // ----- the levels ------------------------------------------------------------------------

  function Level(step: nat): real {
    step as real * 0.5
  }

  function Ceil(x: real): int {
    -(-x).Floor
  }

  /** How many half-core steps it takes to reach the highest load, at least one. */
  function Steps(highest: real): nat {
    if Ceil(highest / 0.5) < 1 then 1 else Ceil(highest / 0.5)
  }

  /** The last level holds the highest load, and the one before it does not. */
  lemma StepsReach(highest: real)
    ensures highest <= Level(Steps(highest))
    ensures Steps(highest) > 1 ==> Level(Steps(highest) - 1) < highest
  {
    var x := highest / 0.5;
    assert x == highest * 2.0;
    assert (-x).Floor as real <= -x < (-x).Floor as real + 1.0;
  }

  method HighestForeign(rows: seq<Row>) returns (highest: Option<real>)
    ensures highest.None? <==> !AnyMeasured(rows)
    ensures highest.Some? ==> forall i: nat | i < |rows| && rows[i].cpu.Measured? :: Foreign(rows[i]) <= highest.value
    ensures highest.Some? ==> exists i: nat :: i < |rows| && rows[i].cpu.Measured? && Foreign(rows[i]) == highest.value
  {
    highest := None;
    for n := 0 to |rows|
      invariant highest.None? <==> forall i: nat | i < n :: !rows[i].cpu.Measured?
      invariant highest.Some? ==> forall i: nat | i < n && rows[i].cpu.Measured? :: Foreign(rows[i]) <= highest.value
      invariant highest.Some? ==> exists i: nat :: i < n && rows[i].cpu.Measured? && Foreign(rows[i]) == highest.value
    {
      if rows[n].cpu.Measured? && (highest.None? || highest.value < Foreign(rows[n])) {
        highest := Some(Foreign(rows[n]));
      }
    }
  }

  // ----- what one level says ---------------------------------------------------------------

  predicate CleanAt(row: Row, level: real) {
    row.cpu.Measured? && Foreign(row) <= level
  }

  /** The rows of a phase at or below a level, in the order they were printed. */
  function Clean(rows: seq<Row>, level: real, phase: Phase): seq<Row> {
    if rows == [] then []
    else
      var row := rows[|rows| - 1];
      Clean(rows[..|rows| - 1], level, phase) + if CleanAt(row, level) && row.phase == phase then [row] else []
  }

  /** The site had learned a class, and another than Streaming. */
  predicate Left(row: Row) {
    row.learned.Some? && row.learned.value != Streaming
  }

  predicate AnyLeft(rows: seq<Row>) {
    exists i: nat :: i < |rows| && Left(rows[i])
  }

  /** Did the site leave under the load only? No answer without rows both before and under it. */
  function Attribution(rows: seq<Row>, level: real): Option<bool> {
    var before, load := Clean(rows, level, Before), Clean(rows, level, Load);
    if before == [] || load == [] then None else Some(!AnyLeft(before) && AnyLeft(load))
  }

  /** Was it back in Streaming at the last row after the load? */
  function Persistence(rows: seq<Row>, level: real): Option<bool> {
    var after := Clean(rows, level, After);
    if after == [] then None else Some(after[|after| - 1].learned == Some(Streaming))
  }

  // ----- the sweep -------------------------------------------------------------------------

  datatype Answer = Answer(level: real, holds: bool)

  function AnswersOf(level: real, holds: Option<bool>): seq<Answer> {
    match holds
    case Some(yes) => [Answer(level, yes)]
    case None => []
  }

  /** The answers of the first k levels that have one. */
  function Attributions(rows: seq<Row>, k: nat): seq<Answer> {
    if k == 0 then [] else Attributions(rows, k - 1) + AnswersOf(Level(k), Attribution(rows, Level(k)))
  }

  function Persistences(rows: seq<Row>, k: nat): seq<Answer> {
    if k == 0 then [] else Persistences(rows, k - 1) + AnswersOf(Level(k), Persistence(rows, Level(k)))
  }

  datatype Sweep = NoRow | Swept(steps: nat, attribution: seq<Answer>, persistence: seq<Answer>)

  /** The body of the loop: what one level adds to the two lists. */
  method SweepLevel(rows: seq<Row>, level: real) returns (attribution: seq<Answer>, persistence: seq<Answer>)
    ensures attribution == AnswersOf(level, Attribution(rows, level))
    ensures persistence == AnswersOf(level, Persistence(rows, level))
  {
    attribution, persistence := [], [];
    var before, load := Clean(rows, level, Before), Clean(rows, level, Load);
    var after := Clean(rows, level, After);
    if before != [] && load != [] {
      attribution := [Answer(level, !AnyLeft(before) && AnyLeft(load))];
    }
    if after != [] {
      persistence := [Answer(level, after[|after| - 1].learned == Some(Streaming))];
    }
  }

  /** The loop over the levels. */
  method SweepTo(rows: seq<Row>, steps: nat) returns (attribution: seq<Answer>, persistence: seq<Answer>)
    ensures attribution == Attributions(rows, steps) && persistence == Persistences(rows, steps)
  {
    attribution, persistence := [], [];
    for step := 1 to steps + 1
      invariant attribution == Attributions(rows, step - 1) && persistence == Persistences(rows, step - 1)
    {
      var a, p := SweepLevel(rows, Level(step));
      attribution, persistence := attribution + a, persistence + p;
    }
  }

  method SweepLevels(rows: seq<Row>) returns (r: Sweep)
    ensures r.NoRow? <==> !AnyMeasured(rows)
    ensures r.Swept? ==>
              && r.steps > 0
              && (forall i: nat | i < |rows| && rows[i].cpu.Measured? :: CleanAt(rows[i], Level(r.steps)))
              && r.attribution == Attributions(rows, r.steps) && r.persistence == Persistences(rows, r.steps)
  {
    var highest := HighestForeign(rows);
    if highest.None? {
      return NoRow;
    }
    StepsReach(highest.value);
    var steps := Steps(highest.value);
    var attribution, persistence := SweepTo(rows, steps);
    r := Swept(steps, attribution, persistence);
  }

  // ----- higher levels hold more rows ------------------------------------------------------

  lemma {:induction false} CleanHas(rows: seq<Row>, level: real, phase: Phase, row: Row)
    ensures row in Clean(rows, level, phase) <==> row in rows && CleanAt(row, level) && row.phase == phase
  {
    if rows != [] {
      var front, last := rows[..|rows| - 1], rows[|rows| - 1];
      CleanHas(front, level, phase, row);
      assert rows == front + [last];
    }
  }

  /** Whatever a level shows of a phase, every level above it shows too. */
  lemma CleanGrows(rows: seq<Row>, level: real, above: real, phase: Phase)
    requires level <= above
    ensures Clean(rows, level, phase) != [] ==> Clean(rows, above, phase) != []
    ensures AnyLeft(Clean(rows, level, phase)) ==> AnyLeft(Clean(rows, above, phase))
  {
    forall row: Row | row in Clean(rows, level, phase)
      ensures row in Clean(rows, above, phase)
    {
      CleanHas(rows, level, phase, row);
      CleanHas(rows, above, phase, row);
    }
    if Clean(rows, level, phase) != [] {
      assert Clean(rows, level, phase)[0] in Clean(rows, above, phase);
    }
    if AnyLeft(Clean(rows, level, phase)) {
      var i: nat :| i < |Clean(rows, level, phase)| && Left(Clean(rows, level, phase)[i]);
      assert Clean(rows, level, phase)[i] in Clean(rows, above, phase);
    }
  }

  /** A level with an answer has answers at every level above it. */
  lemma AnsweredAbove(rows: seq<Row>, level: real, above: real)
    requires level <= above
    ensures Attribution(rows, level).Some? ==> Attribution(rows, above).Some?
    ensures Persistence(rows, level).Some? ==> Persistence(rows, above).Some?
  {
    CleanGrows(rows, level, above, Before);
    CleanGrows(rows, level, above, Load);
    CleanGrows(rows, level, above, After);
  }

  /** The levels at which the leaving is the load's own are one stretch, with no level in it that says otherwise. */
  lemma AttributionIsOneStretch(rows: seq<Row>, low: real, level: real, high: real)
    requires low <= level <= high
    requires Attribution(rows, low) == Some(true) && Attribution(rows, high) == Some(true)
    ensures Attribution(rows, level) == Some(true)
  {
    AnsweredAbove(rows, low, level);
    CleanGrows(rows, low, level, Load);
    CleanGrows(rows, level, high, Before);
  }

  /** No level that has an answer is missing between two others: from the first on, each half core has one. */
  predicate NoGap(answers: seq<Answer>, k: nat) {
    && |answers| <= k
    && forall t: nat | t < |answers| :: answers[t].level == Level(k - |answers| + 1 + t)
  }

  lemma NoGapWithOneMore(answers: seq<Answer>, k: nat, holds: Option<bool>)
    requires k > 0 && NoGap(answers, k - 1) && (answers != [] ==> holds.Some?)
    ensures NoGap(answers + AnswersOf(Level(k), holds), k)
  {
    var more := answers + AnswersOf(Level(k), holds);
    forall t: nat | t < |more|
      ensures more[t].level == Level(k - |more| + 1 + t)
    {
      assert t < |answers| ==> k - 1 - |answers| + 1 + t == k - |more| + 1 + t;
    }
  }

  lemma {:induction false} AnswersHaveNoGap(rows: seq<Row>, k: nat)
    ensures NoGap(Attributions(rows, k), k) && NoGap(Persistences(rows, k), k)
    ensures Attributions(rows, k) != [] ==> Attribution(rows, Level(k)).Some?
    ensures Persistences(rows, k) != [] ==> Persistence(rows, Level(k)).Some?
  {
    if k > 0 {
      AnswersHaveNoGap(rows, k - 1);
      AnsweredAbove(rows, Level(k - 1), Level(k));
      NoGapWithOneMore(Attributions(rows, k - 1), k, Attribution(rows, Level(k)));
      NoGapWithOneMore(Persistences(rows, k - 1), k, Persistence(rows, Level(k)));
    }
  }

  lemma {:induction false} AttributionsAre(rows: seq<Row>, k: nat, t: nat)
    requires t < |Attributions(rows, k)|
    ensures Attribution(rows, Attributions(rows, k)[t].level) == Some(Attributions(rows, k)[t].holds)
  {
    if t < |Attributions(rows, k - 1)| {
      AttributionsAre(rows, k - 1, t);
    }
  }

  // ----- the verdicts ----------------------------------------------------------------------

  datatype Verdict =
    | NoAnswer
    | AtEvery(holds: bool, from: real, to: real, levels: nat)
    | Mixed(holding: seq<real>, failing: seq<real>)

  function LevelsWhere(answers: seq<Answer>, holds: bool): seq<real> {
    if answers == [] then []
    else
      var last := answers[|answers| - 1];
      LevelsWhere(answers[..|answers| - 1], holds) + if last.holds == holds then [last.level] else []
  }

  predicate AllSay(answers: seq<Answer>, holds: bool) {
    forall t: nat | t < |answers| :: answers[t].holds == holds
  }

  lemma {:induction false} LevelsWhereEmpty(answers: seq<Answer>, holds: bool)
    ensures LevelsWhere(answers, holds) == [] <==> AllSay(answers, !holds)
  {
    if answers != [] {
      var front, last := answers[..|answers| - 1], answers[|answers| - 1];
      LevelsWhereEmpty(front, holds);
      assert answers == front + [last];
      assert AllSay(answers, !holds) <==> AllSay(front, !holds) && last.holds == !holds;
    }
  }

  /** `verdict`: one answer for all the levels, or which levels say which. */
  method Conclude(answers: seq<Answer>) returns (v: Verdict)
    ensures v.NoAnswer? <==> answers == []
    ensures v.AtEvery? <==> answers != [] && AllSay(answers, answers[0].holds)
    ensures v.AtEvery? ==>
              v == AtEvery(answers[0].holds, answers[0].level, answers[|answers| - 1].level, |answers|)
    ensures v.Mixed? ==> v == Mixed(LevelsWhere(answers, true), LevelsWhere(answers, false))
  {
    var holding, failing := LevelsWhere(answers, true), LevelsWhere(answers, false);
    LevelsWhereEmpty(answers, true);
    LevelsWhereEmpty(answers, false);
    if answers == [] {
      v := NoAnswer;
    } else if failing == [] {
      v := AtEvery(true, answers[0].level, answers[|answers| - 1].level, |answers|);
    } else if holding == [] {
      v := AtEvery(false, answers[0].level, answers[|answers| - 1].level, |answers|);
    } else {
      v := Mixed(holding, failing);
    }
  }

  /**
   The leaving is called the load's own at every level exactly when the least level with an answer
   already shows the site leaving under the load and the top level, which has every row with CPU
   context, shows none leaving before it.
   */
  lemma AlwaysTheLoadIff(rows: seq<Row>, k: nat)
    requires Attributions(rows, k) != []
    ensures var answers := Attributions(rows, k);
            AllSay(answers, true) <==>
            AnyLeft(Clean(rows, answers[0].level, Load)) && !AnyLeft(Clean(rows, Level(k), Before))
  {
    var answers := Attributions(rows, k);
    var top := |answers| - 1;
    AnswersHaveNoGap(rows, k);
    assert answers[top].level == Level(k);
    AttributionsAre(rows, k, 0);
    AttributionsAre(rows, k, top);
    if AnyLeft(Clean(rows, answers[0].level, Load)) && !AnyLeft(Clean(rows, Level(k), Before)) {
      forall t: nat | t < |answers|
        ensures answers[t].holds
      {
        AttributionsAre(rows, k, t);
        assert answers[0].level <= answers[t].level <= Level(k);
        CleanGrows(rows, answers[0].level, answers[t].level, Load);
        CleanGrows(rows, answers[t].level, Level(k), Before);
      }
    }
  }
}
