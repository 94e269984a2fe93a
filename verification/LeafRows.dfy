/**
 What the rows of examples/class_migration_under_load.rs measure: a row's mean is the mean time of the
 leaves between its readings, and its cv2 falls short of theirs by what scaling the times down loses.
 */
module LeafRows {
  import opened LeafSizes
  import opened OnlineMoments
  import opened Options
  import opened Reals
  import opened Totals

  function NanosSquared(leaf: Leaf): nat {
    leaf.nanos * leaf.nanos
  }

  /** What scaling loses of a leaf's square: nothing when its time is a multiple of 256, never more than 510 times the time. */
  lemma ScalingLoses(leaf: Leaf)
    ensures 0 <= NanosSquared(leaf) - 65536 * LeafSizes.Square(leaf) <= 510 * leaf.nanos
    ensures NanosSquared(leaf) == 65536 * LeafSizes.Square(leaf) <==> leaf.nanos % 256 == 0
  {
    var q: nat, r: nat := Scaled(leaf), leaf.nanos % 256;
    assert leaf.nanos == 256 * q + r;
    SquareOfParts(q, r);
  }

  lemma SquareOfParts(q: nat, r: nat)
    requires r < 256
    ensures (256 * q + r) * (256 * q + r) - 65536 * (q * q) == 512 * (q * r) + r * r
    ensures 0 <= 512 * (q * r) + r * r <= 510 * (256 * q + r)
    ensures 512 * (q * r) + r * r == 0 <==> r == 0
  {
    assert q * r <= q * 255;
    assert r * r <= 255 * r;
    if r > 0 {
      assert r * r >= r;
    }
  }

  predicate NoneOverflows(leaves: seq<Leaf>) {
    forall k: nat | k < |leaves| :: !SquareOverflows(leaves[k])
  }

  predicate AllScaleExactly(leaves: seq<Leaf>) {
    forall k: nat | k < |leaves| :: leaves[k].nanos % 256 == 0
  }

  lemma {:induction false} ScalingLosesInAll(leaves: seq<Leaf>)
    requires NoneOverflows(leaves)
    ensures 0 <= Total(leaves, NanosSquared) - 65536 * Total(leaves, Weigh(Squares)) <= 510 * Total(leaves, Weigh(Nanos))
    ensures Total(leaves, NanosSquared) == 65536 * Total(leaves, Weigh(Squares)) <==> AllScaleExactly(leaves)
  {
    if leaves != [] {
      var front, last := leaves[..|leaves| - 1], leaves[|leaves| - 1];
      ScalingLosesInAll(front);
      ScalingLoses(last);
      assert leaves == front + [last];
      assert AllScaleExactly(leaves) <==> AllScaleExactly(front) && last.nanos % 256 == 0;
    }
  }

  // ----- the leaves' own mean and variance -------------------------------------------------

  function Times(leaves: seq<Leaf>): (times: seq<real>)
    ensures |times| == |leaves|
  {
    if leaves == [] then [] else Times(leaves[..|leaves| - 1]) + [leaves[|leaves| - 1].nanos as real]
  }

  lemma {:induction false} TimesAdd(leaves: seq<Leaf>)
    ensures Sum(Times(leaves)) == Total(leaves, Weigh(Nanos)) as real
    ensures Spread(Times(leaves), 0.0) == Total(leaves, NanosSquared) as real
  {
    if leaves != [] {
      var front, x := leaves[..|leaves| - 1], leaves[|leaves| - 1].nanos;
      TimesAdd(front);
      assert Times(leaves)[..|leaves| - 1] == Times(front);
      SquareOfNat(x);
    }
  }

  lemma SquareOfNat(x: nat)
    ensures OnlineMoments.Square(x as real - 0.0) == (x * x) as real
  {
    assert x as real - 0.0 == x as real;
  }

  /** A variance is the mean of the squares less the square of the mean. */
  lemma VarianceOfSquares(s: seq<real>)
    requires s != []
    ensures Variance(s) == PerLeaf(Spread(s, 0.0), |s|) - SquareOf(Mean(s))
  {
    SpreadMoved(s, 0.0, Mean(s));
    SpreadIdentity(Spread(s, 0.0), Sum(s), |s| as real, Mean(s));
  }

  lemma SpreadIdentity(squares: real, sum: real, n: real, mean: real)
    requires n > 0.0 && mean == Over(sum, n)
    ensures Over(squares + OnlineMoments.Gain(sum, n, 0.0, mean), n) == Over(squares, n) - SquareOf(mean)
  {
    GainOfMean(sum, n, mean);
    QuotientLess(squares, SquareOf(mean), n);
  }

  lemma GainOfMean(sum: real, n: real, mean: real)
    requires n > 0.0 && mean == Over(sum, n)
    ensures OnlineMoments.Gain(sum, n, 0.0, mean) == -Mul(SquareOf(mean), n)
  {
    assert sum == mean * n;
    assert 2.0 * (0.0 - mean) * (sum - n * 0.0) == -(2.0 * (mean * mean * n));
    assert OnlineMoments.Square(0.0 - mean) == mean * mean;
  }

  lemma QuotientLess(a: real, b: real, n: real)
    requires n > 0.0
    ensures Over(a + -Mul(b, n), n) == Over(a, n) - b
  {
    var q := a / n;
    assert q * n == a;
    assert (q - b) * n == a - b * n;
  }

  // ----- what a row measures ---------------------------------------------------------------

  /** The counters moved from one reading to the other by these leaves. */
  ghost predicate MovedBy(before: Counters, after: Counters, leaves: seq<Leaf>) {
    forall f: Field :: Value(after, f) == Value(before, f) + Total(leaves, Weigh(f))
  }

  lemma MovedForward(before: Counters, after: Counters, leaves: seq<Leaf>)
    requires leaves != [] && MovedBy(before, after, leaves)
    ensures Backward(before, after) == None && after.count == before.count + |leaves|
  {
    TotalExactly(leaves, Weigh(Count), 1);
    assert Value(after, Count) == Value(before, Count) + |leaves|;
    assert Value(after, Nanos) >= Value(before, Nanos);
    assert Value(after, Squares) >= Value(before, Squares);
    assert Value(after, Overflows) >= Value(before, Overflows);
  }

  lemma OverflowsCount(leaves: seq<Leaf>)
    ensures Total(leaves, Weigh(Overflows)) == 0 <==> NoneOverflows(leaves)
  {
    TotalZero(leaves, Weigh(Overflows));
    assert forall k: nat | k < |leaves| :: Weigh(Overflows)(leaves[k]) == 0 <==> !SquareOverflows(leaves[k]);
  }

  /**
   The row of the leaves between two readings: their number, their mean time, and a cv2 made from a
   variance that is at most theirs and short of it by at most 510 ns times the mean.
   */
  lemma RowMeasures(before: Counters, after: Counters, leaves: seq<Leaf>) returns (variance: real)
    requires leaves != [] && MovedBy(before, after, leaves)
    ensures Backward(before, after) == None && after.count > before.count
    ensures var row := RowBetween(before, after);
            && row.count == |leaves| && row.meanNs == Mean(Times(leaves))
            && row.cv2 == if NoneOverflows(leaves) then Cv2Of(variance, row.meanNs)
                          else Unknown(Total(leaves, Weigh(Overflows)))
    ensures NoneOverflows(leaves) ==>
              && Variance(Times(leaves)) - 510.0 * Mean(Times(leaves)) <= variance <= Variance(Times(leaves))
              && (variance == Variance(Times(leaves)) <==> AllScaleExactly(leaves))
  {
    MovedForward(before, after, leaves);
    OverflowsCount(leaves);
    MovedAmounts(before, after, leaves);
    MeanOfTimes(leaves);
    variance := PrintedVariance(Total(leaves, Weigh(Squares)), |leaves|, Mean(Times(leaves)));
    if NoneOverflows(leaves) {
      var squares, scaled := SquaresPerLeaf(leaves);
    }
  }

  lemma MovedAmounts(before: Counters, after: Counters, leaves: seq<Leaf>)
    requires MovedBy(before, after, leaves)
    ensures after.sum - before.sum == Total(leaves, Weigh(Nanos))
    ensures after.squares - before.squares == Total(leaves, Weigh(Squares))
    ensures after.overflows - before.overflows == Total(leaves, Weigh(Overflows))
  {
    assert Value(after, Nanos) == Value(before, Nanos) + Total(leaves, Weigh(Nanos));
    assert Value(after, Squares) == Value(before, Squares) + Total(leaves, Weigh(Squares));
    assert Value(after, Overflows) == Value(before, Overflows) + Total(leaves, Weigh(Overflows));
  }

  lemma MeanOfTimes(leaves: seq<Leaf>)
    requires leaves != []
    ensures PerLeaf(Total(leaves, Weigh(Nanos)) as real, |leaves|) == Mean(Times(leaves))
  {
    TimesAdd(leaves);
  }

  /** The squares per leaf, as they are and as the row has them. */
  lemma SquaresPerLeaf(leaves: seq<Leaf>) returns (squares: real, scaled: real)
    requires leaves != [] && NoneOverflows(leaves)
    ensures Variance(Times(leaves)) == squares - SquareOf(Mean(Times(leaves)))
    ensures PrintedVariance(Total(leaves, Weigh(Squares)), |leaves|, Mean(Times(leaves))) == scaled - SquareOf(Mean(Times(leaves)))
    ensures 0.0 <= squares - scaled <= 510.0 * Mean(Times(leaves))
    ensures squares == scaled <==> AllScaleExactly(leaves)
  {
    ScalingLosesInAll(leaves);
    MeanOfTimes(leaves);
    VarianceOfTimes(leaves);
    squares := PerLeaf(Total(leaves, NanosSquared) as real, |leaves|);
    scaled := PerLeaf(Total(leaves, Weigh(Squares)) as real * 65536.0, |leaves|);
    ShortBy(Total(leaves, NanosSquared), Total(leaves, Weigh(Squares)), Total(leaves, Weigh(Nanos)), |leaves|);
  }

  lemma VarianceOfTimes(leaves: seq<Leaf>)
    requires leaves != []
    ensures Variance(Times(leaves)) == PerLeaf(Total(leaves, NanosSquared) as real, |leaves|) - SquareOf(Mean(Times(leaves)))
  {
    TimesAdd(leaves);
    VarianceOfSquares(Times(leaves));
  }

  lemma ShortBy(squares: nat, scaled: nat, sum: nat, n: nat)
    requires n > 0 && 0 <= squares - 65536 * scaled <= 510 * sum
    ensures 0.0 <= PerLeaf(squares as real, n) - PerLeaf(scaled as real * 65536.0, n) <= 510.0 * PerLeaf(sum as real, n)
    ensures PerLeaf(squares as real, n) == PerLeaf(scaled as real * 65536.0, n) <==> squares == 65536 * scaled
  {
    var short := squares - 65536 * scaled;
    assert squares as real == short as real + scaled as real * 65536.0;
    QuotientOfSum(short as real, scaled as real * 65536.0, n as real);
    QuotientInOrder(short as real, 510.0 * sum as real, n as real);
    QuotientOfMultiple(sum as real, n as real);
  }

  lemma QuotientOfSum(a: real, b: real, n: real)
    requires n > 0.0
    ensures Over(a + b, n) == Over(a, n) + Over(b, n)
  {
  }

  lemma QuotientOfMultiple(a: real, n: real)
    requires n > 0.0
    ensures Over(510.0 * a, n) == 510.0 * Over(a, n)
  {
  }

  lemma QuotientInOrder(a: real, b: real, n: real)
    requires n > 0.0 && 0.0 <= a <= b
    ensures 0.0 <= Over(a, n) <= Over(b, n)
    ensures Over(a, n) == 0.0 <==> a == 0.0
  {
  }

  /** A cv2 has the sign of the variance it is made from. */
  lemma SignOfCv2(variance: real, mean: real)
    ensures SquareOf(mean) == 0.0 <==> mean == 0.0
    ensures Cv2Of(variance, mean).PerMille? ==>
              && (Cv2Of(variance, mean).value >= 0.0 <==> variance >= 0.0)
              && (Cv2Of(variance, mean).value == 0.0 <==> variance == 0.0)
  {
    SquareZeroIff(mean, SquareOf(mean));
    if mean != 0.0 {
      SignOfQuotient(variance, SquareOf(mean));
    }
  }

  lemma SignOfQuotient(v: real, m: real)
    requires m > 0.0
    ensures v / m * 1000.0 >= 0.0 <==> v >= 0.0
    ensures v / m * 1000.0 == 0.0 <==> v == 0.0
  {
    var q := v / m;
    assert q * m == v;
  }

  /** One leaf has no variance, and its row prints none exactly when its time is a multiple of 256; else it prints less than none. */
  lemma OneLeafIff(before: Counters, after: Counters, leaf: Leaf)
    requires MovedBy(before, after, [leaf])
    ensures Backward(before, after) == None && after.count > before.count
    ensures var cv2 := RowBetween(before, after).cv2;
            cv2.PerMille? ==> cv2.value <= 0.0 && (cv2.value == 0.0 <==> leaf.nanos % 256 == 0)
  {
    var variance := RowMeasures(before, after, [leaf]);
    assert Times([leaf]) == [leaf.nanos as real];
    VarianceZeroIff(Times([leaf]));
    SignOfCv2(variance, Mean(Times([leaf])));
    assert AllScaleExactly([leaf]) <==> [leaf][0].nanos % 256 == 0;
  }

  /** Leaves whose times scale exactly print the cv2 they have, which is never negative. */
  lemma ExactRowIsNonnegative(before: Counters, after: Counters, leaves: seq<Leaf>)
    requires leaves != [] && MovedBy(before, after, leaves) && AllScaleExactly(leaves)
    ensures Backward(before, after) == None && after.count > before.count
    ensures var row := RowBetween(before, after);
            row.cv2.PerMille? ==> row.cv2 == Cv2Of(Variance(Times(leaves)), row.meanNs) && row.cv2.value >= 0.0
  {
    var variance := RowMeasures(before, after, leaves);
    VarianceZeroIff(Times(leaves));
    SignOfCv2(variance, Mean(Times(leaves)));
  }

  /** The rows the program prints are such rows: between dispatches, the counters move by the leaves there were. */
  lemma ReportedRowMoves(recorders: nat, schedule: seq<Action>, b: nat, m: Moments, m': Moments)
    requires InOrder(m, |schedule|) && InOrder(m', |schedule|) && m.overflows <= m'.count
    requires b < LEAF_BUCKETS && NoWrap(recorders, schedule, b)
    requires BetweenDispatches(recorders, schedule, m) && BetweenDispatches(recorders, schedule, m')
    ensures var r, r', leaves := Reading(recorders, schedule, b, m), Reading(recorders, schedule, b, m'), Leaves(recorders, schedule, b);
            r.count <= r'.count <= |leaves| && MovedBy(r, r', leaves[r.count..r'.count])
  {
    var r, r', leaves := Reading(recorders, schedule, b, m), Reading(recorders, schedule, b, m'), Leaves(recorders, schedule, b);
    ReportedIntervalIsExact(recorders, schedule, b, m, m', Count);
    forall f: Field
      ensures Value(r', f) == Value(r, f) + Total(leaves[r.count..r'.count], Weigh(f))
    {
      ReportedIntervalIsExact(recorders, schedule, b, m, m', f);
    }
  }
}
