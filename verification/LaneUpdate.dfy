/**
 The trailing update of benches/flynn_axes.rs handed to several lanes at once: the `div_ceil` row
 ranges each lane takes, and the lanes running `apply_pivot_to_rows` on one shared slice with every
 load and every store of an element interleaved freely.
 */
module LaneUpdate {
  import opened Layout
  import opened PivotedElimination

  // ----- the row ranges --------------------------------------------------------------------

  function RowsPerLane(n: nat, start: nat, lanes: nat): nat
    requires start <= n && lanes > 0
  {
    DivCeil(n - start, lanes)
  }

  function Lo(n: nat, start: nat, lanes: nat, lane: nat): nat
    requires start <= n && lanes > 0
  {
    start + lane * RowsPerLane(n, start, lanes)
  }

  function Hi(n: nat, start: nat, lanes: nat, lane: nat): nat
    requires start <= n && lanes > 0
  {
    Min(Lo(n, start, lanes, lane) + RowsPerLane(n, start, lanes), n)
  }

  lemma ProductsBefore(per: nat, a: nat, b: nat)
    requires a < b
    ensures a * per + per <= b * per
  {
    PartStartIsProduct(per, a);
    PartStartIsProduct(per, b);
    PartsBefore(per, a, b);
  }

  /** A later lane starts where an earlier one has already stopped. */
  lemma LanesDisjoint(n: nat, start: nat, lanes: nat, a: nat, b: nat)
    requires start <= n && lanes > 0 && a < b
    ensures Hi(n, start, lanes, a) <= Lo(n, start, lanes, b)
  {
    ProductsBefore(RowsPerLane(n, start, lanes), a, b);
  }

  /** Every trailing row falls to some lane. */
  lemma LaneOfRow(n: nat, start: nat, lanes: nat, row: nat) returns (lane: nat)
    requires lanes > 0 && start <= row < n
    ensures lane < lanes && Lo(n, start, lanes, lane) <= row < Hi(n, start, lanes, lane)
  {
    var per := RowsPerLane(n, start, lanes);
    lane := (row - start) / per;
    assert row - start == lane * per + (row - start) % per;
    if lane >= lanes {
      if lane > lanes {
        ProductsBefore(per, lanes, lane);
      }
      assert false;
    }
  }

  /** The ranges, lane by lane: in order, apart from each other, and together all of start..n. */
  lemma LanesPartition(n: nat, start: nat, lanes: nat)
    requires lanes > 0 && start <= n
    ensures forall a: nat, b: nat | a < b < lanes :: Hi(n, start, lanes, a) <= Lo(n, start, lanes, b)
    ensures forall row: nat :: start <= row < n <==> InSomeLane(n, start, lanes, row)
  {
    forall a: nat, b: nat | a < b < lanes
      ensures Hi(n, start, lanes, a) <= Lo(n, start, lanes, b)
    {
      LanesDisjoint(n, start, lanes, a, b);
    }
    forall row: nat
      ensures start <= row < n <==> InSomeLane(n, start, lanes, row)
    {
      if start <= row < n {
        var lane := LaneOfRow(n, start, lanes, row);
      }
      if InSomeLane(n, start, lanes, row) {
        var lane: nat :| lane < lanes && Lo(n, start, lanes, lane) <= row < Hi(n, start, lanes, lane);
        LoFromStart(n, start, lanes, lane);
      }
    }
  }

  lemma LoFromStart(n: nat, start: nat, lanes: nat, lane: nat)
    requires lanes > 0 && start <= n
    ensures start <= Lo(n, start, lanes, lane)
  {
    assert lane * RowsPerLane(n, start, lanes) >= 0;
  }

  ghost predicate InSomeLane(n: nat, start: nat, lanes: nat, row: nat)
    requires lanes > 0 && start <= n
  {
    exists lane: nat | lane < lanes :: Lo(n, start, lanes, lane) <= row < Hi(n, start, lanes, lane)
  }

  // ----- the lanes -------------------------------------------------------------------------

  datatype Pc = ReadMultiplier | ReadPivot | ReadCell | WriteCell | WriteMultiplier | Finished

  /** One lane's place in `apply_pivot_to_rows` and what it has loaded and not yet stored. */
  datatype Lane = Lane(row: nat, col: nat, pc: Pc, multiplier: real, pivotCol: real, cell: real)

  datatype State = State(m: seq<real>, lanes: seq<Lane>)

  /** The rows lo..hi one lane is handed. */
  datatype Range = Range(lo: nat, hi: nat)

  /** The dimension, the elimination step and each lane's rows. */
  datatype Job = Job(n: nat, step: nat, ranges: seq<Range>) {
    /** Trailing rows only, and no row in two lanes. */
    ghost predicate Valid() {
      && step < n
      && (forall l: nat | l < |ranges| :: step < ranges[l].lo && ranges[l].hi <= n)
      && (forall a: nat, b: nat | a < b < |ranges| :: ranges[a].hi <= ranges[b].lo)
    }
    /** No trailing row left out. */
    ghost predicate Complete() {
      forall row: nat | step < row < n :: Assigned(row)
    }
    ghost predicate Assigned(row: nat) {
      exists l: nat | l < |ranges| :: ranges[l].lo <= row < ranges[l].hi
    }
  }

  /** The job the bench hands out: `div_ceil` ranges over the rows below the pivot row. */
  function BenchJob(n: nat, step: nat, lanes: nat): Job
    requires step < n && lanes > 0
  {
    Job(n, step, seq(lanes, l requires 0 <= l => Range(Lo(n, step + 1, lanes, l), Hi(n, step + 1, lanes, l))))
  }

  lemma BenchJobIsValid(n: nat, step: nat, lanes: nat)
    requires step < n && lanes > 0
    ensures BenchJob(n, step, lanes).Valid() && BenchJob(n, step, lanes).Complete()
  {
    var job := BenchJob(n, step, lanes);
    LanesPartition(n, step + 1, lanes);
    forall l: nat | l < lanes
      ensures step < job.ranges[l].lo && job.ranges[l].hi <= n
    {
      LoFromStart(n, step + 1, lanes, l);
    }
    forall row: nat | step < row < n
      ensures job.Assigned(row)
    {
      var l := LaneOfRow(n, step + 1, lanes, row);
      assert job.ranges[l].lo <= row < job.ranges[l].hi;
    }
  }

  ghost predicate WellFormed(job: Job, s: State) {
    && job.Valid()
    && |s.m| == job.n * job.n
    && |s.lanes| == |job.ranges|
    && forall l: nat | l < |job.ranges| :: LaneInRange(job, s.lanes[l])
  }

  ghost predicate LaneInRange(job: Job, lane: Lane) {
    && (lane.pc != ReadMultiplier && lane.pc != Finished ==> lane.row < job.n)
    && (lane.pc == ReadPivot || lane.pc == ReadCell || lane.pc == WriteCell ==> lane.col < job.n)
  }

  function Initial(job: Job, m: seq<real>): State
    requires job.Valid()
  {
    State(m, seq(|job.ranges|, l requires 0 <= l < |job.ranges| => Lane(job.ranges[l].lo, 0, ReadMultiplier, 0.0, 0.0, 0.0)))
  }

  function AtColumn(n: nat, col: nat): Pc {
    if col < n then ReadPivot else WriteMultiplier
  }

  /** One load or one store by lane l. A lane out of rows only notices that. */
  function Step(job: Job, s: State, l: nat): State
    requires WellFormed(job, s) && l < |job.ranges|
  {
    var lane := s.lanes[l];
    match lane.pc
    case ReadMultiplier =>
      if lane.row >= job.ranges[l].hi then s.(lanes := s.lanes[l := lane.(pc := Finished)])
      else s.(lanes := s.lanes[l := lane.(multiplier := Cell(s.m, job.n, lane.row, job.step),
                                          col := job.step + 1,
                                          pc := AtColumn(job.n, job.step + 1))])
    case ReadPivot =>
      s.(lanes := s.lanes[l := lane.(pivotCol := Cell(s.m, job.n, job.step, lane.col), pc := ReadCell)])
    case ReadCell =>
      s.(lanes := s.lanes[l := lane.(cell := Cell(s.m, job.n, lane.row, lane.col), pc := WriteCell)])
    case WriteCell =>
      State(s.m[Index(job.n, lane.row, lane.col) := Less(lane.cell, lane.multiplier, lane.pivotCol)],
            s.lanes[l := lane.(col := lane.col + 1, pc := AtColumn(job.n, lane.col + 1))])
    case WriteMultiplier =>
      State(s.m[Index(job.n, lane.row, job.step) := lane.multiplier],
            s.lanes[l := lane.(row := lane.row + 1, pc := ReadMultiplier)])
    case Finished => s
  }

  // ----- what every interleaving keeps -----------------------------------------------------

  /** Lane l has already put the reduced value into cell (r, c) of its own rows. */
  predicate Stored(job: Job, lane: Lane, r: nat, c: nat) {
    && c > job.step
    && (|| r < lane.row
        || (r == lane.row && (lane.pc == ReadPivot || lane.pc == ReadCell || lane.pc == WriteCell) && c < lane.col)
        || (r == lane.row && lane.pc == WriteMultiplier))
  }

  ghost predicate LaneInv(job: Job, was: seq<real>, m: seq<real>, l: nat, lane: Lane)
    requires job.Valid() && |was| == job.n * job.n && |m| == job.n * job.n && l < |job.ranges|
  {
    && job.ranges[l].lo <= lane.row
    && (lane.pc == Finished ==> job.ranges[l].hi <= lane.row)
    && (lane.pc != ReadMultiplier && lane.pc != Finished ==>
          lane.row < job.ranges[l].hi && lane.multiplier == Cell(was, job.n, lane.row, job.step))
    && (lane.pc == ReadPivot || lane.pc == ReadCell || lane.pc == WriteCell ==> job.step < lane.col < job.n)
    && (lane.pc == ReadCell || lane.pc == WriteCell ==> lane.pivotCol == Cell(was, job.n, job.step, lane.col))
    && (lane.pc == WriteCell ==> lane.cell == Cell(was, job.n, lane.row, lane.col))
    && (forall r: nat, c: nat | job.ranges[l].lo <= r < job.ranges[l].hi && c < job.n ::
          Cell(m, job.n, r, c) ==
          if Stored(job, lane, r, c) then ReducedCell(was, job.n, job.step, job.step + 1, job.n, r, c)
          else Cell(was, job.n, r, c))
  }

  ghost predicate Inv(job: Job, was: seq<real>, s: State)
    requires job.Valid() && |was| == job.n * job.n
  {
    && WellFormed(job, s)
    && (forall l: nat | l < |job.ranges| :: LaneInv(job, was, s.m, l, s.lanes[l]))
    && (forall r: nat, c: nat | r <= job.step && c < job.n :: Cell(s.m, job.n, r, c) == Cell(was, job.n, r, c))
  }

  lemma InitialInv(job: Job, m: seq<real>)
    requires job.Valid() && |m| == job.n * job.n
    ensures Inv(job, m, Initial(job, m))
  {
  }

  /** A store into a row of lane l is not seen by the rows of another lane, nor by the pivot row. */
  lemma StoreStaysInLane(job: Job, was: seq<real>, m: seq<real>, l: nat, other: nat, lane: Lane, row: nat, col: nat, v: real)
    requires job.Valid() && |was| == job.n * job.n && |m| == job.n * job.n && l < |job.ranges| && other < |job.ranges| && other != l
    requires job.ranges[l].lo <= row < job.ranges[l].hi && col < job.n
    requires LaneInv(job, was, m, other, lane)
    ensures LaneInv(job, was, m[Index(job.n, row, col) := v], other, lane)
  {
    StoreCell(m, job.n, row, col, v, m[Index(job.n, row, col) := v]);
  }

  lemma OtherLanesKeep(job: Job, was: seq<real>, s: State, l: nat, row: nat, col: nat, v: real)
    requires job.Valid() && |was| == job.n * job.n && l < |job.ranges| && Inv(job, was, s)
    requires job.ranges[l].lo <= row < job.ranges[l].hi && col < job.n
    ensures forall other: nat | other < |job.ranges| && other != l ::
              LaneInv(job, was, s.m[Index(job.n, row, col) := v], other, s.lanes[other])
    ensures forall r: nat, c: nat | r <= job.step && c < job.n ::
              Cell(s.m[Index(job.n, row, col) := v], job.n, r, c) == Cell(was, job.n, r, c)
  {
    StoreCell(s.m, job.n, row, col, v, s.m[Index(job.n, row, col) := v]);
    forall other: nat | other < |job.ranges| && other != l
      ensures LaneInv(job, was, s.m[Index(job.n, row, col) := v], other, s.lanes[other])
    {
      StoreStaysInLane(job, was, s.m, l, other, s.lanes[other], row, col, v);
    }
  }

  lemma WriteCellKeepsLane(job: Job, was: seq<real>, m: seq<real>, l: nat, lane: Lane, m': seq<real>, lane': Lane)
    requires job.Valid() && |was| == job.n * job.n && |m| == job.n * job.n && l < |job.ranges|
    requires LaneInv(job, was, m, l, lane) && lane.pc == WriteCell
    requires m' == m[Index(job.n, lane.row, lane.col) := Less(lane.cell, lane.multiplier, lane.pivotCol)]
    requires lane' == lane.(col := lane.col + 1, pc := AtColumn(job.n, lane.col + 1))
    ensures LaneInv(job, was, m', l, lane')
  {
    var v := Less(lane.cell, lane.multiplier, lane.pivotCol);
    StoreCell(m, job.n, lane.row, lane.col, v, m');
    assert v == ReducedCell(was, job.n, job.step, job.step + 1, job.n, lane.row, lane.col);
  }

  lemma WriteMultiplierKeepsLane(job: Job, was: seq<real>, m: seq<real>, l: nat, lane: Lane, m': seq<real>, lane': Lane)
    requires job.Valid() && |was| == job.n * job.n && |m| == job.n * job.n && l < |job.ranges|
    requires LaneInv(job, was, m, l, lane) && lane.pc == WriteMultiplier
    requires m' == m[Index(job.n, lane.row, job.step) := lane.multiplier]
    requires lane' == lane.(row := lane.row + 1, pc := ReadMultiplier)
    ensures LaneInv(job, was, m', l, lane')
  {
    StoreCell(m, job.n, lane.row, job.step, lane.multiplier, m');
  }

  lemma ReadKeepsLane(job: Job, was: seq<real>, s: State, l: nat)
    requires job.Valid() && |was| == job.n * job.n && l < |job.ranges| && Inv(job, was, s)
    requires s.lanes[l].pc != WriteCell && s.lanes[l].pc != WriteMultiplier
    ensures Step(job, s, l).m == s.m && LaneInv(job, was, s.m, l, Step(job, s, l).lanes[l])
  {
    var lane := s.lanes[l];
    assert LaneInv(job, was, s.m, l, lane);
  }

  /** A store by lane l inside its own rows. */
  lemma StoreInv(job: Job, was: seq<real>, s: State, l: nat, row: nat, col: nat, v: real, m': seq<real>, lane': Lane)
    requires job.Valid() && |was| == job.n * job.n && l < |job.ranges| && Inv(job, was, s)
    requires job.ranges[l].lo <= row < job.ranges[l].hi && col < job.n && m' == s.m[Index(job.n, row, col) := v]
    requires LaneInv(job, was, m', l, lane')
    ensures Inv(job, was, State(m', s.lanes[l := lane']))
  {
    OtherLanesKeep(job, was, s, l, row, col, v);
    KeepsAssemble(job, was, s, l, State(m', s.lanes[l := lane']));
  }

  lemma WriteStep(job: Job, was: seq<real>, s: State, l: nat)
    requires job.Valid() && |was| == job.n * job.n && l < |job.ranges| && Inv(job, was, s)
    requires s.lanes[l].pc == WriteCell || s.lanes[l].pc == WriteMultiplier
    ensures Inv(job, was, Step(job, s, l))
  {
    var lane, s' := s.lanes[l], Step(job, s, l);
    assert LaneInv(job, was, s.m, l, lane);
    if lane.pc == WriteCell {
      WriteCellKeepsLane(job, was, s.m, l, lane, s'.m, s'.lanes[l]);
      StoreInv(job, was, s, l, lane.row, lane.col, Less(lane.cell, lane.multiplier, lane.pivotCol), s'.m, s'.lanes[l]);
    } else {
      WriteMultiplierKeepsLane(job, was, s.m, l, lane, s'.m, s'.lanes[l]);
      StoreInv(job, was, s, l, lane.row, job.step, lane.multiplier, s'.m, s'.lanes[l]);
    }
    assert s' == State(s'.m, s.lanes[l := s'.lanes[l]]);
  }

  lemma ReadStep(job: Job, was: seq<real>, s: State, l: nat)
    requires job.Valid() && |was| == job.n * job.n && l < |job.ranges| && Inv(job, was, s)
    requires s.lanes[l].pc != WriteCell && s.lanes[l].pc != WriteMultiplier
    ensures Inv(job, was, Step(job, s, l))
  {
    ReadKeepsLane(job, was, s, l);
    KeepsAssemble(job, was, s, l, Step(job, s, l));
  }

  lemma StepInv(job: Job, was: seq<real>, s: State, l: nat)
    requires job.Valid() && |was| == job.n * job.n && l < |job.ranges| && Inv(job, was, s)
    ensures Inv(job, was, Step(job, s, l))
  {
    match s.lanes[l].pc
    case WriteCell => WriteStep(job, was, s, l);
    case WriteMultiplier => WriteStep(job, was, s, l);
    case _ => ReadStep(job, was, s, l);
  }

  /** The invariant from its parts: the lane that moved, the lanes that did not, and the pivot rows. */
  lemma KeepsAssemble(job: Job, was: seq<real>, s: State, l: nat, s': State)
    requires job.Valid() && |was| == job.n * job.n && l < |job.ranges| && Inv(job, was, s)
    requires |s'.m| == job.n * job.n && |s'.lanes| == |job.ranges| && s'.lanes == s.lanes[l := s'.lanes[l]]
    requires LaneInv(job, was, s'.m, l, s'.lanes[l])
    requires forall other: nat | other < |job.ranges| && other != l :: LaneInv(job, was, s'.m, other, s.lanes[other])
    requires forall r: nat, c: nat | r <= job.step && c < job.n :: Cell(s'.m, job.n, r, c) == Cell(was, job.n, r, c)
    ensures Inv(job, was, s')
  {
    forall k: nat | k < |job.ranges|
      ensures LaneInv(job, was, s'.m, k, s'.lanes[k]) && LaneInRange(job, s'.lanes[k])
    {
    }
  }

  /** The state after the lanes took their turns in the order `schedule` names them. */
  ghost function Run(job: Job, m: seq<real>, schedule: seq<nat>): (s: State)
    requires job.Valid() && |m| == job.n * job.n
    requires forall t: nat | t < |schedule| :: schedule[t] < |job.ranges|
    ensures Inv(job, m, s)
  {
    if schedule == [] then
      InitialInv(job, m);
      Initial(job, m)
    else
      var s := Run(job, m, schedule[..|schedule| - 1]);
      var l := schedule[|schedule| - 1];
      StepInv(job, m, s, l);
      Step(job, s, l)
  }

  /** A reduction determines the whole slice. */
  lemma ReducedIsUnique(m: seq<real>, a: seq<real>, b: seq<real>, n: nat, step: nat, lo: nat, hi: nat)
    requires |m| == n * n && |a| == n * n && |b| == n * n && step < n
    requires RowsReduced(m, a, n, step, lo, hi) && RowsReduced(m, b, n, step, lo, hi)
    ensures a == b
  {
    forall k: nat | k < n * n
      ensures a[k] == b[k]
    {
      var r, c := k / n, k % n;
      assert k == r * n + c;
      if r >= n {
        if r > n {
          ProductsBefore(n, n, r);
        }
        assert false;
      }
      IndexIsRowMajor(n, r, c);
      assert Cell(a, n, r, c) == Cell(b, n, r, c);
    }
  }

  /**
   Whatever the order in which the lanes' element accesses fall, once every lane has finished the
   slice is the one a single `apply_pivot_to_rows` over all the trailing rows would have left.
   */
  lemma InterleavedEqualsSerial(job: Job, m: seq<real>, schedule: seq<nat>, serial: seq<real>)
    requires job.Valid() && job.Complete() && |m| == job.n * job.n && |serial| == job.n * job.n
    requires forall t: nat | t < |schedule| :: schedule[t] < |job.ranges|
    requires forall l: nat | l < |job.ranges| :: Run(job, m, schedule).lanes[l].pc == Finished
    requires RowsReduced(m, serial, job.n, job.step, job.step + 1, job.n)
    ensures Run(job, m, schedule).m == serial
  {
    var s := Run(job, m, schedule);
    forall r: nat, c: nat | r < job.n && c < job.n
      ensures Cell(s.m, job.n, r, c) == ReducedCell(m, job.n, job.step, job.step + 1, job.n, r, c)
    {
      FinishedRow(job, m, s, r, c);
    }
    ReducedIsUnique(m, s.m, serial, job.n, job.step, job.step + 1, job.n);
  }

  lemma FinishedRow(job: Job, was: seq<real>, s: State, r: nat, c: nat)
    requires job.Valid() && job.Complete() && |was| == job.n * job.n && Inv(job, was, s) && r < job.n && c < job.n
    requires forall l: nat | l < |job.ranges| :: s.lanes[l].pc == Finished
    ensures Cell(s.m, job.n, r, c) == ReducedCell(was, job.n, job.step, job.step + 1, job.n, r, c)
  {
    if r > job.step {
      assert job.Assigned(r);
      var l: nat :| l < |job.ranges| && job.ranges[l].lo <= r < job.ranges[l].hi;
      assert LaneInv(job, was, s.m, l, s.lanes[l]);
    }
  }
}
