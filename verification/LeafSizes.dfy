/**
 The leaf-size counters of examples/class_migration_under_load.rs: any number of recorders adding to
 the counters of one bucket field by field, and readings that take the fields at different moments.
 Recorders' atomic operations are the steps of a run; a reading is the moments it loads at.
 */
module LeafSizes {
  import opened Options
  import opened Powers
  import opened Reals
  import opened Totals

  /** 64-bit unsigned numbers; `fetch_add` wraps. */
  const U64: nat := 0x1_0000_0000_0000_0000
  type u64 = n: nat | n < 0x1_0000_0000_0000_0000

  /** n less 2^64 as often as it takes. */
  function Wrap(n: nat): (r: u64)
    ensures n < U64 ==> r == n
  {
    if n < U64 then n else Wrap(n - U64)
  }

  lemma {:induction false} WrapIsRemainder(n: nat)
    ensures Wrap(n) == n % 0x1_0000_0000_0000_0000
  {
    if n >= U64 {
      WrapIsRemainder(n - U64);
      OneLess(n);
    }
  }

  lemma OneLess(n: nat)
    requires n >= U64
    ensures n % 0x1_0000_0000_0000_0000 == (n - 0x1_0000_0000_0000_0000) % 0x1_0000_0000_0000_0000
  {
  }

  function Plus(a: u64, b: nat): (r: u64)
    ensures a + b < U64 ==> r == a + b
  {
    Wrap(a + b)
  }

  datatype Leaf = Leaf(items: u64, nanos: u64)

  /** One `LeafSize`, and also one `LeafSizeReading`. */
  datatype Counters = Counters(items: u64, count: u64, sum: u64, squares: u64, overflows: u64)

  datatype Field = Count | Nanos | Squares | Overflows

  function Value(c: Counters, f: Field): u64 {
    match f
    case Count => c.count
    case Nanos => c.sum
    case Squares => c.squares
    case Overflows => c.overflows
  }

  // ----- buckets ---------------------------------------------------------------------------

  const LEAF_BUCKETS: nat := 65

  function Log2(n: nat): nat
    requires n > 0
  {
    if n == 1 then 0 else 1 + Log2(n / 2)
  }

  function BucketOf(items: nat): nat {
    if items == 0 then 0 else Log2(items) + 1
  }

  lemma {:induction false} Log2Iff(n: nat, b: nat)
    requires n > 0
    ensures Log2(n) == b <==> Pow2(b) <= n < Pow2(b + 1)
  {
    if n > 1 {
      if b > 0 {
        Log2Iff(n / 2, b - 1);
      }
    } else if b > 0 {
      PowGrows(b);
    }
  }

  /** Bucket 0 is for empty slices; bucket b + 1 is for slices whose count has base-2 logarithm b. */
  lemma BucketIff(items: nat, b: nat)
    ensures BucketOf(items) == 0 <==> items == 0
    ensures BucketOf(items) == b + 1 <==> items > 0 && Pow2(b) <= items < Pow2(b + 1)
  {
    if items > 0 {
      Log2Iff(items, b);
    }
  }

  lemma {:induction false} Log2Below(n: nat, b: nat)
    requires 0 < n < Pow2(b)
    ensures Log2(n) < b
  {
    if n > 1 {
      Log2Below(n / 2, b - 1);
    }
  }

  /** No count a `usize` can hold falls outside the array. */
  lemma BucketInRange(items: u64)
    ensures BucketOf(items) < LEAF_BUCKETS
  {
    if items > 0 {
      PowOf64();
      Log2Below(items, 64);
    }
  }

  lemma PowOf64()
    ensures Pow2(64) == U64
  {
    assert Pow2(2) == 4;
    PowAdds(2, 2, 4, 4);
    PowAdds(4, 4, 16, 16);
    PowAdds(8, 8, 0x100, 0x100);
    PowAdds(16, 16, 0x1_0000, 0x1_0000);
    PowAdds(32, 32, 0x1_0000_0000, 0x1_0000_0000);
  }

  // ----- what a leaf adds ------------------------------------------------------------------

  function Scaled(leaf: Leaf): nat {
    leaf.nanos / 0x100
  }

  function Square(leaf: Leaf): nat {
    Scaled(leaf) * Scaled(leaf)
  }

  predicate SquareOverflows(leaf: Leaf) {
    Square(leaf) >= U64
  }

  /** A leaf's square is lost from 2^40 ns on, about eighteen minutes. */
  lemma SquareOverflowsIff(leaf: Leaf)
    ensures SquareOverflows(leaf) <==> leaf.nanos >= 0x100_0000_0000
  {
    if Scaled(leaf) >= 0x1_0000_0000 {
      SquaresInOrder(0x1_0000_0000, Scaled(leaf));
    } else {
      SquaresInOrder(Scaled(leaf) + 1, 0x1_0000_0000);
      assert (Scaled(leaf) + 1) * (Scaled(leaf) + 1) == Square(leaf) + 2 * Scaled(leaf) + 1;
    }
  }

  lemma SquaresInOrder(a: nat, b: nat)
    requires a <= b
    ensures a * a <= b * b
  {
    assert a * a <= a * b <= b * b;
  }

  /** How much a leaf adds to a field in all. */
  function Weight(f: Field, leaf: Leaf): nat {
    match f
    case Count => 1
    case Nanos => leaf.nanos
    case Squares => if SquareOverflows(leaf) then 0 else Square(leaf)
    case Overflows => if SquareOverflows(leaf) then 1 else 0
  }

  function Weigh(f: Field): Leaf -> nat {
    leaf => Weight(f, leaf)
  }

  // ----- recorders -------------------------------------------------------------------------

  /** Where a recorder is in `record_leaf_size`. */
  datatype Pc = Idle | Storing | Summing | Squaring | Counting

  datatype Recorder = Recorder(pc: Pc, leaf: Leaf)

  /** `counted[b]` is the history of bucket b: the leaves its count counts, in order. */
  datatype State = State(buckets: seq<Counters>, recorders: seq<Recorder>, counted: seq<seq<Leaf>>)

  datatype Action = Begin(recorder: nat, leaf: Leaf) | Turn(recorder: nat)

  const ZERO := Counters(0, 0, 0, 0, 0)

  function Initial(recorders: nat): State {
    State(seq(LEAF_BUCKETS, _ => ZERO), seq(recorders, _ => Recorder(Idle, Leaf(0, 0))), seq(LEAF_BUCKETS, _ => []))
  }

  predicate Shaped(s: State) {
    |s.buckets| == |s.counted| == LEAF_BUCKETS
  }

  function Next(pc: Pc): Pc {
    match pc
    case Idle => Idle
    case Storing => Summing
    case Summing => Squaring
    case Squaring => Counting
    case Counting => Idle
  }

  /** The atomic operation a recorder at `pc` does to its bucket. */
  function Added(c: Counters, pc: Pc, leaf: Leaf): Counters {
    match pc
    case Idle => c
    case Storing => c.(items := leaf.items)
    case Summing => c.(sum := Plus(c.sum, leaf.nanos))
    case Squaring =>
      if Square(leaf) < U64 then c.(squares := Plus(c.squares, Square(leaf)))
      else c.(overflows := Plus(c.overflows, 1))
    case Counting => c.(count := Plus(c.count, 1))
  }

  function Step(s: State, a: Action): (s': State)
    requires Shaped(s)
    ensures Shaped(s') && |s'.recorders| == |s.recorders|
  {
    match a
    case Begin(i, leaf) =>
      if i < |s.recorders| && s.recorders[i].pc == Idle then s.(recorders := s.recorders[i := Recorder(Storing, leaf)])
      else s
    case Turn(i) =>
      if i < |s.recorders| then
        var r := s.recorders[i];
        BucketInRange(r.leaf.items);
        var b := BucketOf(r.leaf.items);
        State(s.buckets[b := Added(s.buckets[b], r.pc, r.leaf)],
              s.recorders[i := Recorder(Next(r.pc), r.leaf)],
              if r.pc == Counting then s.counted[b := s.counted[b] + [r.leaf]] else s.counted)
      else s
  }

  function Run(recorders: nat, schedule: seq<Action>): (s: State)
    ensures Shaped(s) && |s.recorders| == recorders
  {
    if schedule == [] then Initial(recorders)
    else Step(Run(recorders, schedule[..|schedule| - 1]), schedule[|schedule| - 1])
  }

  // ----- what the fields hold --------------------------------------------------------------

  /** A recorder at `pc` has added to the field and not yet counted its leaf. */
  predicate Ahead(f: Field, pc: Pc) {
    match f
    case Count => false
    case Nanos => pc == Squaring || pc == Counting
    case _ => pc == Counting
  }

  function PendingOf(b: nat, f: Field, r: Recorder): nat {
    if BucketOf(r.leaf.items) == b && Ahead(f, r.pc) then Weight(f, r.leaf) else 0
  }

  function Pending(b: nat, f: Field): Recorder -> nat {
    r => PendingOf(b, f, r)
  }

  /** The field without wrapping: the leaves counted, and those under way that have added to it. */
  function Amount(s: State, b: nat, f: Field): nat
    requires Shaped(s) && b < LEAF_BUCKETS
  {
    Total(s.counted[b], Weigh(f)) + Total(s.recorders, Pending(b, f))
  }

  ghost predicate Holds(s: State, b: nat, f: Field)
    requires Shaped(s) && b < LEAF_BUCKETS
  {
    Value(s.buckets[b], f) == Wrap(Amount(s, b, f))
  }

  /** How much of a field a step adds to it. */
  function Gain(s: State, a: Action, b: nat, f: Field): nat
    requires Shaped(s)
  {
    if a.Turn? && a.recorder < |s.recorders| && BucketOf(s.recorders[a.recorder].leaf.items) == b
       && AddsTo(f, s.recorders[a.recorder].pc)
    then Weight(f, s.recorders[a.recorder].leaf) else 0
  }

  predicate AddsTo(f: Field, pc: Pc) {
    match f
    case Count => pc == Counting
    case Nanos => pc == Summing
    case _ => pc == Squaring
  }

  /** What a recorder's step takes from the leaves under way goes to those counted, but for what it adds. */
  lemma PendingGains(s: State, a: Action, b: nat, f: Field)
    requires Shaped(s) && b < LEAF_BUCKETS && a.recorder < |s.recorders|
    ensures PendingOf(b, f, s.recorders[a.recorder]) + Gain(s, a, b, f)
         == PendingOf(b, f, Step(s, a).recorders[a.recorder])
          + if a.Turn? && s.recorders[a.recorder].pc == Counting && BucketOf(s.recorders[a.recorder].leaf.items) == b
            then Weight(f, s.recorders[a.recorder].leaf) else 0
  {
  }

  lemma StepAmount(s: State, a: Action, b: nat, f: Field)
    requires Shaped(s) && b < LEAF_BUCKETS
    ensures Amount(Step(s, a), b, f) == Amount(s, b, f) + Gain(s, a, b, f)
  {
    if a.recorder < |s.recorders| {
      PendingGains(s, a, b, f);
      StepPending(s, a, b, f);
      StepCounted(s, a, b, f);
    }
  }

  lemma StepPending(s: State, a: Action, b: nat, f: Field)
    requires Shaped(s) && b < LEAF_BUCKETS && a.recorder < |s.recorders|
    ensures Total(Step(s, a).recorders, Pending(b, f))
         == Total(s.recorders, Pending(b, f)) - PendingOf(b, f, s.recorders[a.recorder])
          + PendingOf(b, f, Step(s, a).recorders[a.recorder])
  {
    TotalUpdate(s.recorders, Pending(b, f), a.recorder, Step(s, a).recorders[a.recorder]);
  }

  lemma StepCounted(s: State, a: Action, b: nat, f: Field)
    requires Shaped(s) && b < LEAF_BUCKETS && a.recorder < |s.recorders|
    ensures Total(Step(s, a).counted[b], Weigh(f)) == Total(s.counted[b], Weigh(f))
          + if a.Turn? && s.recorders[a.recorder].pc == Counting && BucketOf(s.recorders[a.recorder].leaf.items) == b
            then Weight(f, s.recorders[a.recorder].leaf) else 0
  {
    TotalAppend(s.counted[b], Weigh(f), s.recorders[a.recorder].leaf);
  }

  lemma StepValue(s: State, a: Action, b: nat, f: Field)
    requires Shaped(s) && b < LEAF_BUCKETS
    ensures Value(Step(s, a).buckets[b], f) == Wrap(Value(s.buckets[b], f) + Gain(s, a, b, f))
  {
  }

  lemma {:induction false} AddThenWrap(a: nat, g: nat)
    ensures Wrap(Wrap(a) + g) == Wrap(a + g)
  {
    if a >= U64 {
      AddThenWrap(a - U64, g);
    }
  }

  lemma HoldsNext(s: State, s': State, b: nat, f: Field, gain: nat)
    requires Shaped(s) && Shaped(s') && b < LEAF_BUCKETS && Holds(s, b, f)
    requires Amount(s', b, f) == Amount(s, b, f) + gain
    requires Value(s'.buckets[b], f) == Wrap(Value(s.buckets[b], f) + gain)
    ensures Holds(s', b, f)
  {
    AddThenWrap(Amount(s, b, f), gain);
  }

  lemma StepHolds(s: State, a: Action, b: nat, f: Field)
    requires Shaped(s) && b < LEAF_BUCKETS && Holds(s, b, f)
    ensures Holds(Step(s, a), b, f)
  {
    StepAmount(s, a, b, f);
    StepValue(s, a, b, f);
    HoldsNext(s, Step(s, a), b, f, Gain(s, a, b, f));
  }

  lemma {:induction false} RunHolds(recorders: nat, schedule: seq<Action>, b: nat, f: Field)
    requires b < LEAF_BUCKETS
    ensures Holds(Run(recorders, schedule), b, f)
  {
    if schedule == [] {
      TotalZero(Initial(recorders).recorders, Pending(b, f));
    } else {
      RunHolds(recorders, schedule[..|schedule| - 1], b, f);
      StepHolds(Run(recorders, schedule[..|schedule| - 1]), schedule[|schedule| - 1], b, f);
    }
  }

  // ----- readings --------------------------------------------------------------------------

  /** A run at its moment t. */
  function At(recorders: nat, schedule: seq<Action>, t: nat): (s: State)
    requires t <= |schedule|
    ensures Shaped(s)
  {
    Run(recorders, schedule[..t])
  }

  /** The moments at which a reading of one bucket loads each field. */
  datatype Moments = Moments(count: nat, items: nat, sum: nat, squares: nat, overflows: nat)

  function Moment(m: Moments, f: Field): nat {
    match f
    case Count => m.count
    case Nanos => m.sum
    case Squares => m.squares
    case Overflows => m.overflows
  }

  /** The order `read_leaf_sizes` loads in: the count first. */
  predicate InOrder(m: Moments, end: nat) {
    m.count <= m.items <= m.sum <= m.squares <= m.overflows <= end
  }

  function Reading(recorders: nat, schedule: seq<Action>, b: nat, m: Moments): Counters
    requires InOrder(m, |schedule|) && b < LEAF_BUCKETS
  {
    Counters(At(recorders, schedule, m.items).buckets[b].items,
             At(recorders, schedule, m.count).buckets[b].count,
             At(recorders, schedule, m.sum).buckets[b].sum,
             At(recorders, schedule, m.squares).buckets[b].squares,
             At(recorders, schedule, m.overflows).buckets[b].overflows)
  }

  /** No field of the bucket comes to 2^64 by the end of the run. */
  ghost predicate NoWrap(recorders: nat, schedule: seq<Action>, b: nat)
    requires b < LEAF_BUCKETS
  {
    forall f: Field :: Amount(Run(recorders, schedule), b, f) < U64
  }

  /** The leaves the bucket's count has counted by the end of the run, in order. */
  function Leaves(recorders: nat, schedule: seq<Action>, b: nat): seq<Leaf>
    requires b < LEAF_BUCKETS
  {
    Run(recorders, schedule).counted[b]
  }

  lemma {:induction false} AmountGrows(recorders: nat, schedule: seq<Action>, t: nat, u: nat, b: nat, f: Field)
    requires t <= u <= |schedule| && b < LEAF_BUCKETS
    ensures Amount(At(recorders, schedule, t), b, f) <= Amount(At(recorders, schedule, u), b, f)
    ensures At(recorders, schedule, t).counted[b] <= At(recorders, schedule, u).counted[b]
  {
    if t < u {
      AmountGrows(recorders, schedule, t, u - 1, b, f);
      assert schedule[..u][..u - 1] == schedule[..u - 1];
      StepAmount(At(recorders, schedule, u - 1), schedule[u - 1], b, f);
    }
  }

  /** Absent wrap, a field holds what the leaves have added to it. */
  lemma ValueIsAmount(recorders: nat, schedule: seq<Action>, t: nat, b: nat, f: Field)
    requires t <= |schedule| && b < LEAF_BUCKETS && NoWrap(recorders, schedule, b)
    ensures Value(At(recorders, schedule, t).buckets[b], f) == Amount(At(recorders, schedule, t), b, f)
  {
    RunHolds(recorders, schedule[..t], b, f);
    assert schedule[..|schedule|] == schedule;
    AmountGrows(recorders, schedule, t, |schedule|, b, f);
    assert Amount(Run(recorders, schedule), b, f) < U64;
  }

  lemma CountIsLength(recorders: nat, schedule: seq<Action>, t: nat, b: nat)
    requires t <= |schedule| && b < LEAF_BUCKETS && NoWrap(recorders, schedule, b)
    ensures var s := At(recorders, schedule, t);
            && s.buckets[b].count == |s.counted[b]|
            && s.counted[b] <= Leaves(recorders, schedule, b)
  {
    var s := At(recorders, schedule, t);
    ValueIsAmount(recorders, schedule, t, b, Count);
    TotalExactly(s.counted[b], Weigh(Count), 1);
    TotalZero(s.recorders, Pending(b, Count));
    assert schedule[..|schedule|] == schedule;
    AmountGrows(recorders, schedule, t, |schedule|, b, Count);
  }

  lemma ReadingValue(recorders: nat, schedule: seq<Action>, b: nat, m: Moments, f: Field)
    requires InOrder(m, |schedule|) && b < LEAF_BUCKETS && NoWrap(recorders, schedule, b)
    ensures Value(Reading(recorders, schedule, b, m), f) == Amount(At(recorders, schedule, Moment(m, f)), b, f)
  {
    ValueIsAmount(recorders, schedule, Moment(m, f), b, f);
  }

  /** A reading's sums cover at least the leaves its count does, whatever recorders do meanwhile. */
  lemma ReadingCovers(recorders: nat, schedule: seq<Action>, b: nat, m: Moments, f: Field)
    requires InOrder(m, |schedule|) && b < LEAF_BUCKETS && NoWrap(recorders, schedule, b)
    ensures var r, leaves := Reading(recorders, schedule, b, m), Leaves(recorders, schedule, b);
            r.count <= |leaves| && Total(leaves[..r.count], Weigh(f)) <= Value(r, f)
  {
    CountIsLength(recorders, schedule, m.count, b);
    ReadingValue(recorders, schedule, b, m, f);
    AmountGrows(recorders, schedule, m.count, Moment(m, f), b, f);
    var r := Reading(recorders, schedule, b, m);
    assert Leaves(recorders, schedule, b)[..r.count] == At(recorders, schedule, m.count).counted[b];
  }

  function Advanced(earlier: u64, later: u64): Option<u64> {
    if later >= earlier then Some(later - earlier) else None
  }

  /** Of two readings one after the other, no field went backward. */
  lemma SuccessiveReadings(recorders: nat, schedule: seq<Action>, b: nat, m: Moments, m': Moments, f: Field)
    requires InOrder(m, |schedule|) && InOrder(m', |schedule|) && m.overflows <= m'.count
    requires b < LEAF_BUCKETS && NoWrap(recorders, schedule, b)
    ensures Advanced(Value(Reading(recorders, schedule, b, m), f), Value(Reading(recorders, schedule, b, m'), f)).Some?
  {
    ReadingValue(recorders, schedule, b, m, f);
    ReadingValue(recorders, schedule, b, m', f);
    AmountGrows(recorders, schedule, Moment(m, f), Moment(m', f), b, f);
  }

  /** Readings one after another. */
  ghost predicate Successive(readings: seq<Moments>, end: nat) {
    && (forall j: nat | j < |readings| :: InOrder(readings[j], end))
    && (forall j: nat | 0 < j < |readings| :: readings[j - 1].overflows <= readings[j].count)
  }

  /** What the intervals between consecutive readings report for a field, added up. */
  function Reported(recorders: nat, schedule: seq<Action>, b: nat, readings: seq<Moments>, f: Field): nat
    requires readings != [] && Successive(readings, |schedule|) && b < LEAF_BUCKETS
  {
    var k := |readings| - 1;
    if k == 0 then 0
    else
      var before := Value(Reading(recorders, schedule, b, readings[k - 1]), f);
      var after := Value(Reading(recorders, schedule, b, readings[k]), f);
      Reported(recorders, schedule, b, readings[..k], f)
      + match Advanced(before, after) { case Some(delta) => delta case None => 0 }
  }

  /** However the run is cut into intervals, they report together what the last reading has over the first. */
  lemma {:induction false} IntervalsTelescope(recorders: nat, schedule: seq<Action>, b: nat, readings: seq<Moments>, f: Field)
    requires readings != [] && Successive(readings, |schedule|)
    requires b < LEAF_BUCKETS && NoWrap(recorders, schedule, b)
    ensures Reported(recorders, schedule, b, readings, f) + Value(Reading(recorders, schedule, b, readings[0]), f)
         == Value(Reading(recorders, schedule, b, readings[|readings| - 1]), f)
  {
    var k := |readings| - 1;
    if k > 0 {
      IntervalsTelescope(recorders, schedule, b, readings[..k], f);
      SuccessiveReadings(recorders, schedule, b, readings[k - 1], readings[k], f);
    }
  }

  // ----- what an interval covers -----------------------------------------------------------

  ghost predicate Exact(recorders: nat, schedule: seq<Action>, b: nat, m: Moments, f: Field)
    requires InOrder(m, |schedule|) && b < LEAF_BUCKETS
  {
    var r, leaves := Reading(recorders, schedule, b, m), Leaves(recorders, schedule, b);
    r.count <= |leaves| && Value(r, f) == Total(leaves[..r.count], Weigh(f))
  }

  /** No recorder has added to the bucket without having counted its leaf. */
  ghost predicate Quiet(s: State, b: nat) {
    forall i: nat | i < |s.recorders| && BucketOf(s.recorders[i].leaf.items) == b ::
      s.recorders[i].pc != Squaring && s.recorders[i].pc != Counting
  }

  /** A reading taken while no recorder is at work in the bucket is exact. */
  lemma QuietReadingIsExact(recorders: nat, schedule: seq<Action>, b: nat, m: Moments, f: Field)
    requires InOrder(m, |schedule|) && b < LEAF_BUCKETS && NoWrap(recorders, schedule, b)
    requires Quiet(At(recorders, schedule, m.count), b)
    requires At(recorders, schedule, Moment(m, f)).buckets[b] == At(recorders, schedule, m.count).buckets[b]
    ensures Exact(recorders, schedule, b, m, f)
  {
    CountIsLength(recorders, schedule, m.count, b);
    ReadingCovers(recorders, schedule, b, m, f);
    ValueIsAmount(recorders, schedule, m.count, b, f);
    TotalZero(At(recorders, schedule, m.count).recorders, Pending(b, f));
    var r := Reading(recorders, schedule, b, m);
    assert Leaves(recorders, schedule, b)[..r.count] == At(recorders, schedule, m.count).counted[b];
  }

  /** What an interval's sums should hold of the leaves it counts: all of them at least. */
  ghost predicate Covers(recorders: nat, schedule: seq<Action>, b: nat, m: Moments, m': Moments, f: Field)
    requires InOrder(m, |schedule|) && InOrder(m', |schedule|) && b < LEAF_BUCKETS
  {
    var r, r' := Reading(recorders, schedule, b, m), Reading(recorders, schedule, b, m');
    && r.count <= r'.count <= |Leaves(recorders, schedule, b)|
    && Total(Leaves(recorders, schedule, b)[r.count..r'.count], Weigh(f)) <= Value(r', f) - Value(r, f)
  }

  lemma TotalOfSlice(leaves: seq<Leaf>, i: nat, j: nat, f: Field)
    requires i <= j <= |leaves|
    ensures Total(leaves[..j], Weigh(f)) == Total(leaves[..i], Weigh(f)) + Total(leaves[i..j], Weigh(f))
  {
    assert leaves[..j] == leaves[..i] + leaves[i..j];
    TotalConcat(leaves[..i], leaves[i..j], Weigh(f));
  }

  /** From an exact reading on, an interval's sums cover at least the leaves the interval counts. */
  lemma IntervalCovers(recorders: nat, schedule: seq<Action>, b: nat, m: Moments, m': Moments, f: Field)
    requires InOrder(m, |schedule|) && InOrder(m', |schedule|) && m.overflows <= m'.count
    requires b < LEAF_BUCKETS && NoWrap(recorders, schedule, b) && Exact(recorders, schedule, b, m, f)
    ensures Covers(recorders, schedule, b, m, m', f)
  {
    var r, r' := Reading(recorders, schedule, b, m), Reading(recorders, schedule, b, m');
    SuccessiveReadings(recorders, schedule, b, m, m', Count);
    ReadingCovers(recorders, schedule, b, m', f);
    TotalOfSlice(Leaves(recorders, schedule, b), r.count, r'.count, f);
  }

  /** And to an exact reading, from any that is not, they do not. */
  lemma IntervalMisses(recorders: nat, schedule: seq<Action>, b: nat, m: Moments, m': Moments, f: Field)
    requires InOrder(m, |schedule|) && InOrder(m', |schedule|) && m.overflows <= m'.count
    requires b < LEAF_BUCKETS && NoWrap(recorders, schedule, b)
    requires !Exact(recorders, schedule, b, m, f) && Exact(recorders, schedule, b, m', f)
    ensures !Covers(recorders, schedule, b, m, m', f)
  {
    var r, r' := Reading(recorders, schedule, b, m), Reading(recorders, schedule, b, m');
    SuccessiveReadings(recorders, schedule, b, m, m', Count);
    ReadingCovers(recorders, schedule, b, m, f);
    TotalOfSlice(Leaves(recorders, schedule, b), r.count, r'.count, f);
  }

  /** Between two exact readings an interval's sums are those of the leaves it counts, no more and no less. */
  lemma ExactIntervalIsExact(recorders: nat, schedule: seq<Action>, b: nat, m: Moments, m': Moments, f: Field)
    requires InOrder(m, |schedule|) && InOrder(m', |schedule|) && m.overflows <= m'.count
    requires b < LEAF_BUCKETS && NoWrap(recorders, schedule, b)
    requires Exact(recorders, schedule, b, m, f) && Exact(recorders, schedule, b, m', f)
    ensures var r, r', leaves := Reading(recorders, schedule, b, m), Reading(recorders, schedule, b, m'), Leaves(recorders, schedule, b);
            && r.count <= r'.count <= |leaves|
            && Value(r', f) - Value(r, f) == Total(leaves[r.count..r'.count], Weigh(f))
  {
    var r, r' := Reading(recorders, schedule, b, m), Reading(recorders, schedule, b, m');
    SuccessiveReadings(recorders, schedule, b, m, m', Count);
    TotalOfSlice(Leaves(recorders, schedule, b), r.count, r'.count, f);
  }

  // ----- readings between dispatches -------------------------------------------------------

  ghost predicate AllIdle(s: State) {
    forall i: nat | i < |s.recorders| :: s.recorders[i].pc == Idle
  }

  /**
   A reading as the program takes it: by the thread that dispatches, before its first dispatch or
   after one has returned, so with no recorder in a call from its first load to its last.
   */
  ghost predicate BetweenDispatches(recorders: nat, schedule: seq<Action>, m: Moments)
    requires InOrder(m, |schedule|)
  {
    forall t: nat | m.count <= t <= m.overflows :: AllIdle(At(recorders, schedule, t))
  }

  lemma {:induction false} IdleKeepsBuckets(recorders: nat, schedule: seq<Action>, t: nat, u: nat)
    requires t <= u <= |schedule| && forall k: nat | t <= k <= u :: AllIdle(At(recorders, schedule, k))
    ensures At(recorders, schedule, u).buckets == At(recorders, schedule, t).buckets
  {
    if t < u {
      IdleKeepsBuckets(recorders, schedule, t, u - 1);
      assert schedule[..u][..u - 1] == schedule[..u - 1];
      assert AllIdle(At(recorders, schedule, u - 1));
    }
  }

  lemma BetweenDispatchesIsExact(recorders: nat, schedule: seq<Action>, b: nat, m: Moments, f: Field)
    requires InOrder(m, |schedule|) && b < LEAF_BUCKETS && NoWrap(recorders, schedule, b)
    requires BetweenDispatches(recorders, schedule, m)
    ensures Exact(recorders, schedule, b, m, f)
  {
    IdleKeepsBuckets(recorders, schedule, m.count, Moment(m, f));
    assert AllIdle(At(recorders, schedule, m.count));
    QuietReadingIsExact(recorders, schedule, b, m, f);
  }

  /** So each interval the program reports has exactly the times of the leaves it counts. */
  lemma ReportedIntervalIsExact(recorders: nat, schedule: seq<Action>, b: nat, m: Moments, m': Moments, f: Field)
    requires InOrder(m, |schedule|) && InOrder(m', |schedule|) && m.overflows <= m'.count
    requires b < LEAF_BUCKETS && NoWrap(recorders, schedule, b)
    requires BetweenDispatches(recorders, schedule, m) && BetweenDispatches(recorders, schedule, m')
    ensures var r, r', leaves := Reading(recorders, schedule, b, m), Reading(recorders, schedule, b, m'), Leaves(recorders, schedule, b);
            && r.count <= r'.count <= |leaves|
            && Value(r', f) - Value(r, f) == Total(leaves[r.count..r'.count], Weigh(f))
  {
    BetweenDispatchesIsExact(recorders, schedule, b, m, f);
    BetweenDispatchesIsExact(recorders, schedule, b, m', f);
    ExactIntervalIsExact(recorders, schedule, b, m, m', f);
  }

  // ----- the counters alone: readings that straddle recorders ------------------------------

  lemma RunAppend(recorders: nat, schedule: seq<Action>, a: Action)
    ensures Run(recorders, schedule + [a]) == Step(Run(recorders, schedule), a)
  {
    assert (schedule + [a])[..|schedule|] == schedule;
  }

  lemma TurnMovesOn(recorders: nat, schedule: seq<Action>, i: nat)
    requires i < recorders
    ensures var before := Run(recorders, schedule).recorders;
            Run(recorders, schedule + [Turn(i)]).recorders == before[i := Recorder(Next(before[i].pc), before[i].leaf)]
  {
    RunAppend(recorders, schedule, Turn(i));
  }

  lemma TwoTurnsMoveOn(recorders: nat, schedule: seq<Action>, i: nat)
    requires i < recorders
    ensures var s, s' := Run(recorders, schedule), Run(recorders, schedule + [Turn(i)] + [Turn(i)]);
            s'.recorders == s.recorders[i := Recorder(Next(Next(s.recorders[i].pc)), s.recorders[i].leaf)]
  {
    TurnMovesOn(recorders, schedule, i);
    TurnMovesOn(recorders, schedule + [Turn(i)], i);
  }

  /** Recorder i takes the four turns that finish any call. */
  function Finishing(schedule: seq<Action>, i: nat): seq<Action> {
    schedule + [Turn(i)] + [Turn(i)] + [Turn(i)] + [Turn(i)]
  }

  lemma FourTurnsFinish(recorders: nat, schedule: seq<Action>, i: nat)
    requires i < recorders
    ensures var before := Run(recorders, schedule).recorders;
            Run(recorders, Finishing(schedule, i)).recorders == before[i := Recorder(Idle, before[i].leaf)]
  {
    TwoTurnsMoveOn(recorders, schedule, i);
    TwoTurnsMoveOn(recorders, schedule + [Turn(i)] + [Turn(i)], i);
  }

  /** The run gone on until the first k recorders have finished the calls they were in, one after another. */
  function Drained(schedule: seq<Action>, k: nat): (longer: seq<Action>)
    ensures schedule <= longer
  {
    if k == 0 then schedule else Finishing(Drained(schedule, k - 1), k - 1)
  }

  lemma {:induction false} DrainsAll(recorders: nat, schedule: seq<Action>, k: nat)
    requires k <= recorders
    ensures forall i: nat | i < k :: Run(recorders, Drained(schedule, k)).recorders[i].pc == Idle
  {
    if k > 0 {
      DrainsAll(recorders, schedule, k - 1);
      FourTurnsFinish(recorders, Drained(schedule, k - 1), k - 1);
    }
  }

  /** Going on with a run changes nothing that was read before. */
  lemma ReadingStays(recorders: nat, schedule: seq<Action>, longer: seq<Action>, b: nat, m: Moments, f: Field)
    requires InOrder(m, |schedule|) && schedule <= longer && b < LEAF_BUCKETS && NoWrap(recorders, longer, b)
    ensures NoWrap(recorders, schedule, b)
    ensures Reading(recorders, longer, b, m) == Reading(recorders, schedule, b, m)
    ensures Exact(recorders, longer, b, m, f) <==> Exact(recorders, schedule, b, m, f)
  {
    assert forall t: nat | t <= |schedule| :: longer[..t] == schedule[..t];
    assert longer[..|longer|] == longer && schedule[..|schedule|] == schedule;
    forall g: Field
      ensures Amount(Run(recorders, schedule), b, g) < U64
    {
      AmountGrows(recorders, longer, |schedule|, |longer|, b, g);
      assert Amount(Run(recorders, longer), b, g) < U64;
    }
    AmountGrows(recorders, longer, |schedule|, |longer|, b, f);
    ReadingCovers(recorders, schedule, b, m, f);
    var count := Reading(recorders, schedule, b, m).count;
    assert Leaves(recorders, longer, b)[..count] == Leaves(recorders, schedule, b)[..count];
  }

  /** However the run goes on, every later reading covers its interval. */
  ghost predicate AlwaysCovers(recorders: nat, schedule: seq<Action>, b: nat, m: Moments, f: Field)
    requires InOrder(m, |schedule|) && b < LEAF_BUCKETS
  {
    forall longer: seq<Action>, m': Moments |
      schedule <= longer && InOrder(m', |longer|) && m.overflows <= m'.count && NoWrap(recorders, longer, b) ::
      Covers(recorders, longer, b, m, m', f)
  }

  /**
   Were the counters read while recorders are at work: all later readings cover their intervals
   exactly when the earlier reading is exact, unless what is under way wraps a counter.
   */
  lemma CoversIff(recorders: nat, schedule: seq<Action>, b: nat, m: Moments, f: Field)
    requires InOrder(m, |schedule|) && b < LEAF_BUCKETS && NoWrap(recorders, Drained(schedule, recorders), b)
    ensures AlwaysCovers(recorders, schedule, b, m, f) <==> Exact(recorders, schedule, b, m, f)
  {
    if Exact(recorders, schedule, b, m, f) {
      forall longer: seq<Action>, m': Moments |
        schedule <= longer && InOrder(m', |longer|) && m.overflows <= m'.count && NoWrap(recorders, longer, b)
        ensures Covers(recorders, longer, b, m, m', f)
      {
        ReadingStays(recorders, schedule, longer, b, m, f);
        IntervalCovers(recorders, longer, b, m, m', f);
      }
    } else {
      DrainedMisses(recorders, schedule, b, m, f);
    }
  }

  /** A reading of the drained counters is exact, so the interval up to it misses part of what it counts. */
  lemma DrainedMisses(recorders: nat, schedule: seq<Action>, b: nat, m: Moments, f: Field)
    requires InOrder(m, |schedule|) && b < LEAF_BUCKETS && NoWrap(recorders, Drained(schedule, recorders), b)
    requires !Exact(recorders, schedule, b, m, f)
    ensures !AlwaysCovers(recorders, schedule, b, m, f)
  {
    var longer := Drained(schedule, recorders);
    var end := |longer|;
    var m' := Moments(end, end, end, end, end);
    assert longer[..end] == longer;
    DrainsAll(recorders, schedule, recorders);
    QuietReadingIsExact(recorders, longer, b, m', f);
    ReadingStays(recorders, schedule, longer, b, m, f);
    IntervalMisses(recorders, longer, b, m, m', f);
  }

  function OneTurnEach(t: nat): seq<Action>
    requires t <= 5
  {
    [Begin(0, Leaf(1, 1000)), Turn(0), Turn(0), Turn(0), Turn(0)][..t]
  }

  lemma OneTurnMore(t: nat)
    requires 0 < t <= 5
    ensures Run(1, OneTurnEach(t)) == Step(Run(1, OneTurnEach(t - 1)), OneTurnEach(5)[t - 1])
  {
    assert OneTurnEach(t)[..t - 1] == OneTurnEach(t - 1);
  }

  /** The one bucket the leaf goes to, after each of the five steps. */
  function Stage(t: nat): Counters
    requires t <= 5
  {
    if t <= 1 then ZERO
    else if t == 2 then Counters(1, 0, 0, 0, 0)
    else if t == 3 then Counters(1, 0, 1000, 0, 0)
    else if t == 4 then Counters(1, 0, 1000, 9, 0)
    else Counters(1, 1, 1000, 9, 0)
  }

  function StagePc(t: nat): Pc
    requires 1 <= t <= 5
  {
    if t == 1 then Storing else if t == 2 then Summing else if t == 3 then Squaring else if t == 4 then Counting else Idle
  }

  lemma StageAdds(t: nat)
    requires 2 <= t <= 5
    ensures Next(StagePc(t - 1)) == StagePc(t) && Added(Stage(t - 1), StagePc(t - 1), Leaf(1, 1000)) == Stage(t)
  {
  }

  lemma LoneTurn(s: State, pc: Pc, leaf: Leaf)
    requires Shaped(s) && s.recorders == [Recorder(pc, leaf)] && leaf.items == 1
    ensures Step(s, Turn(0)).recorders == [Recorder(Next(pc), leaf)]
    ensures Step(s, Turn(0)).buckets[1] == Added(s.buckets[1], pc, leaf)
  {
    assert BucketOf(1) == 1;
  }

  lemma {:induction false} StageReached(t: nat)
    requires 1 <= t <= 5
    ensures Run(1, OneTurnEach(t)).recorders == [Recorder(StagePc(t), Leaf(1, 1000))]
    ensures Run(1, OneTurnEach(t)).buckets[1] == Stage(t)
  {
    OneTurnMore(t);
    if t == 1 {
      assert OneTurnEach(0) == [];
    } else {
      StageReached(t - 1);
      StageAdds(t);
      LoneTurn(Run(1, OneTurnEach(t - 1)), StagePc(t - 1), Leaf(1, 1000));
    }
  }

  /**
   Such a reading, and one after it: one leaf of 1000 ns counted in the interval and none of its time,
   with a mean of 0. The program never reads while a recorder is in a call.
   */
  lemma IntervalNeedNotCover()
    ensures var m, m' := Moments(3, 3, 3, 3, 3), Moments(5, 5, 5, 5, 5);
            && Reading(1, OneTurnEach(5), 1, m) == Counters(1, 0, 1000, 0, 0)
            && Reading(1, OneTurnEach(5), 1, m') == Counters(1, 1, 1000, 9, 0)
  {
    assert OneTurnEach(5)[..3] == OneTurnEach(3) && OneTurnEach(5)[..5] == OneTurnEach(5);
    StageReached(3);
    StageReached(5);
  }

  // ----- one recorder by itself ------------------------------------------------------------

  /** What one whole call adds to its bucket, if nobody else is recording. */
  function Recorded(c: Counters, leaf: Leaf): Counters {
    Counters(leaf.items, Plus(c.count, 1), Plus(c.sum, leaf.nanos),
             if SquareOverflows(leaf) then c.squares else Plus(c.squares, Square(leaf)),
             if SquareOverflows(leaf) then Plus(c.overflows, 1) else c.overflows)
  }

  /** The static array of buckets. */
  class Table {
    const buckets: array<Counters>

    predicate Valid()
      reads this
    {
      buckets.Length == LEAF_BUCKETS
    }

    constructor ()
      ensures Valid() && fresh(buckets) && forall b: nat | b < LEAF_BUCKETS :: buckets[b] == ZERO
    {
      buckets := new Counters[LEAF_BUCKETS](_ => ZERO);
    }

    method RecordLeafSize(items: u64, nanos: u64)
      requires Valid()
      modifies buckets
      ensures BucketOf(items) < LEAF_BUCKETS
      ensures buckets[..] == old(buckets[..])[BucketOf(items) := Recorded(old(buckets[..])[BucketOf(items)], Leaf(items, nanos))]
    {
      BucketInRange(items);
      var b := if items > 0 then Log2(items) + 1 else 0;
      var scaled: nat := nanos / 0x100;
      buckets[b] := buckets[b].(items := items);
      buckets[b] := buckets[b].(sum := Plus(buckets[b].sum, nanos));
      if scaled * scaled < U64 {
        buckets[b] := buckets[b].(squares := Plus(buckets[b].squares, scaled * scaled));
      } else {
        buckets[b] := buckets[b].(overflows := Plus(buckets[b].overflows, 1));
      }
      buckets[b] := buckets[b].(count := Plus(buckets[b].count, 1));
    }
  }

  /** A recorder's four operations with nobody's in between are one whole call. */
  lemma UndisturbedRecorder(s: State, i: nat, leaf: Leaf)
    requires Shaped(s) && i < |s.recorders| && s.recorders[i] == Recorder(Storing, leaf)
    ensures BucketOf(leaf.items) < LEAF_BUCKETS
    ensures var b, s' := BucketOf(leaf.items), Step(Step(Step(Step(s, Turn(i)), Turn(i)), Turn(i)), Turn(i));
            && s'.buckets == s.buckets[b := Recorded(s.buckets[b], leaf)]
            && s'.recorders == s.recorders[i := Recorder(Idle, leaf)]
            && s'.counted == s.counted[b := s.counted[b] + [leaf]]
  {
    BucketInRange(leaf.items);
    var b := BucketOf(leaf.items);
    var s2 := Step(Step(s, Turn(i)), Turn(i));
    assert s2.recorders[i] == Recorder(Squaring, leaf);
    assert s2.buckets == s.buckets[b := s.buckets[b].(items := leaf.items, sum := Plus(s.buckets[b].sum, leaf.nanos))];
  }

  // ----- the rows between two readings -----------------------------------------------------

  /** `cv2`: unknown once a square was lost, and no finite number when the mean is 0. */
  datatype Cv2 = PerMille(value: real) | NotFinite | Unknown(overflows: u64)

  datatype Row = Row(items: u64, count: u64, meanNs: real, cv2: Cv2)

  datatype Sizes = Sizes(rows: seq<Row>) | WentBackward(bucket: nat, field: Field)

  /** The first field of a bucket found to have gone backward. A bucket with no new leaf is passed over. */
  function Backward(before: Counters, after: Counters): Option<Field> {
    if after.count < before.count then Some(Count)
    else if after.count == before.count then None
    else if after.sum < before.sum then Some(Nanos)
    else if after.squares < before.squares then Some(Squares)
    else if after.overflows < before.overflows then Some(Overflows)
    else None
  }

  function PerLeaf(total: real, n: nat): real
    requires n > 0
  {
    Over(total, n as real)
  }

  function SquareOf(mean: real): real {
    Mul(mean, mean)
  }

  /** The variance as the row works it out, from the squares of times scaled down by 2^8. */
  function PrintedVariance(squares: nat, n: nat, mean: real): real
    requires n > 0
  {
    PerLeaf(squares as real * 65536.0, n) - SquareOf(mean)
  }

  function Cv2Of(variance: real, mean: real): Cv2 {
    if SquareOf(mean) == 0.0 then NotFinite else PerMille(variance / SquareOf(mean) * 1000.0)
  }

  function RowBetween(before: Counters, after: Counters): Row
    requires Backward(before, after) == None && after.count > before.count
  {
    var n := after.count - before.count;
    var mean := PerLeaf((after.sum - before.sum) as real, n);
    var overflows := after.overflows - before.overflows;
    Row(after.items, n, mean,
        if overflows > 0 then Unknown(overflows)
        else Cv2Of(PrintedVariance(after.squares - before.squares, n, mean), mean))
  }

  function CountOf(row: Row): nat {
    row.count
  }

  /** The leaves the first k buckets counted between two readings. */
  function NewLeaves(earlier: seq<Counters>, later: seq<Counters>, k: nat): int
    requires k <= |earlier| == |later|
  {
    if k == 0 then 0 else NewLeaves(earlier, later, k - 1) + later[k - 1].count - earlier[k - 1].count
  }

  /** A row for each of the first k buckets that counted a new leaf, smallest first. */
  function RowsBelow(earlier: seq<Counters>, later: seq<Counters>, k: nat): seq<Row>
    requires k <= |earlier| == |later| && forall b: nat | b < k :: Backward(earlier[b], later[b]) == None
  {
    if k == 0 then []
    else
      var rows := RowsBelow(earlier, later, k - 1);
      if later[k - 1].count > earlier[k - 1].count then rows + [RowBetween(earlier[k - 1], later[k - 1])] else rows
  }

  /** What one bucket comes to. */
  datatype Bucket = NoLeaf | NewRow(row: Row) | Back(field: Field)

  /** The body of the loop: the count, then the sums, each checked as it is taken. */
  method BetweenOne(before: Counters, after: Counters) returns (r: Bucket)
    ensures r.Back? <==> Backward(before, after).Some?
    ensures r.Back? ==> Backward(before, after) == Some(r.field)
    ensures r.NewRow? <==> Backward(before, after) == None && after.count > before.count
    ensures r.NewRow? ==> r.row == RowBetween(before, after) && r.row.count == after.count - before.count
  {
    if after.count < before.count {
      return Back(Count);
    }
    if after.count == before.count {
      return NoLeaf;
    }
    if after.sum < before.sum {
      return Back(Nanos);
    }
    if after.squares < before.squares {
      return Back(Squares);
    }
    if after.overflows < before.overflows {
      return Back(Overflows);
    }
    r := NewRow(RowBetween(before, after));
  }

  /** The first k buckets are done, none of them having gone backward. */
  ghost predicate RowsSoFar(rows: seq<Row>, earlier: seq<Counters>, later: seq<Counters>, k: nat) {
    && k <= |earlier| == |later|
    && (forall b: nat | b < k :: Backward(earlier[b], later[b]) == None)
    && rows == RowsBelow(earlier, later, k)
    && Total(rows, CountOf) == NewLeaves(earlier, later, k)
  }

  lemma RowsOneMore(rows: seq<Row>, earlier: seq<Counters>, later: seq<Counters>, k: nat, row: Row)
    requires RowsSoFar(rows, earlier, later, k) && k < |earlier| && Backward(earlier[k], later[k]) == None
    requires later[k].count > earlier[k].count ==>
               row == RowBetween(earlier[k], later[k]) && row.count == later[k].count - earlier[k].count
    ensures RowsSoFar(if later[k].count > earlier[k].count then rows + [row] else rows, earlier, later, k + 1)
  {
    TotalAppend(rows, CountOf, row);
  }

  /** The rows, between them all the new leaves there are; or the first field that went backward. */
  method LeafSizesBetween(earlier: seq<Counters>, later: seq<Counters>) returns (r: Sizes)
    requires |earlier| == |later|
    ensures r.Sizes? <==> forall b: nat | b < |earlier| :: Backward(earlier[b], later[b]) == None
    ensures r.Sizes? ==> r.rows == RowsBelow(earlier, later, |earlier|)
    ensures r.Sizes? ==> Total(r.rows, CountOf) == NewLeaves(earlier, later, |earlier|)
    ensures r.WentBackward? ==>
              && r.bucket < |earlier| && Backward(earlier[r.bucket], later[r.bucket]) == Some(r.field)
              && forall b: nat | b < r.bucket :: Backward(earlier[b], later[b]) == None
  {
    var rows: seq<Row> := [];
    for i := 0 to |earlier|
      invariant RowsSoFar(rows, earlier, later, i)
    {
      var one := BetweenOne(earlier[i], later[i]);
      match one
      case Back(field) => return WentBackward(i, field);
      case NoLeaf => RowsOneMore(rows, earlier, later, i, Row(0, 0, 0.0, NotFinite));
      case NewRow(row) =>
        RowsOneMore(rows, earlier, later, i, row);
        rows := rows + [row];
    }
    r := Sizes(rows);
  }

  /** So the rows between two readings one after the other never fail, whatever the recorders do. */
  lemma NeverBackward(recorders: nat, schedule: seq<Action>, b: nat, m: Moments, m': Moments)
    requires InOrder(m, |schedule|) && InOrder(m', |schedule|) && m.overflows <= m'.count
    requires b < LEAF_BUCKETS && NoWrap(recorders, schedule, b)
    ensures Backward(Reading(recorders, schedule, b, m), Reading(recorders, schedule, b, m')) == None
  {
    SuccessiveReadings(recorders, schedule, b, m, m', Count);
    SuccessiveReadings(recorders, schedule, b, m, m', Nanos);
    SuccessiveReadings(recorders, schedule, b, m, m', Squares);
    SuccessiveReadings(recorders, schedule, b, m, m', Overflows);
  }
}
