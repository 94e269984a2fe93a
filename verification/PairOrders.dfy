/**
 The drift-normalised verdicts of examples/pair_orders.py over the reals: each arm's reversed-over-
 forward ratio against the median ratio of its group, judged by the arm's own interval widths.
 */
module PairOrders {
  import opened Options
  import opened Reals
  import opened Sorting

  /** The low, median and high of one timing. */
  datatype Timing = Timing(low: real, mid: real, high: real)

  /** An arm of a group, with what was read of it in each order. */
  datatype Arm = Arm(base: string, name: string, fwd: Option<Timing>, rev: Option<Timing>)

  predicate Paired(a: Arm) {
    a.fwd.Some? && a.rev.Some?
  }

  /** Times are positive. */
  predicate Measured(times: seq<Arm>) {
    forall i: nat | i < |times| :: Positive(times[i].fwd) && Positive(times[i].rev)
  }

  predicate Positive(t: Option<Timing>) {
    t.Some? ==> t.value.mid > 0.0
  }

  /** The arm's reversed median over its forward one. */
  function Ratio(a: Arm): real
    requires Paired(a) && Positive(a.fwd)
  {
    Over(a.rev.value.mid, a.fwd.value.mid)
  }

  // ----- sorting and the median ------------------------------------------------------------

  predicate AtMost(x: real, y: real) {
    x <= y
  }

  function MeanOf(x: real, y: real): real {
    (x + y) / 2.0
  }

  /** The median of a sorted list: its middle, or the mean of its two middles. */
  function Median(s: seq<real>): real
    requires s != []
  {
    var mid := |s| / 2;
    if |s| % 2 != 0 then s[mid] else MeanOf(s[mid - 1], s[mid])
  }

  /** As many numbers at or below it as at or above it: half way between the two ends of the middle. */
  lemma MedianIsMiddle(s: seq<real>, i: nat)
    requires s != [] && Ordered(s, AtMost) && i <= (|s| - 1) / 2
    ensures Median(s) == MeanOf(s[(|s| - 1) / 2], s[|s| / 2])
    ensures s[i] <= Median(s) <= s[|s| - 1 - i]
  {
    assert s[i] <= s[(|s| - 1) / 2] <= s[|s| / 2] <= s[|s| - 1 - i];
  }

  lemma ProductPositive(x: real, k: real)
    requires x > 0.0 && k > 0.0
    ensures Mul(x, k) > 0.0
  {
  }

  function Scaled(s: seq<real>, k: real): (r: seq<real>)
    ensures |r| == |s|
  {
    if s == [] then [] else Scaled(s[..|s| - 1], k) + [Mul(s[|s| - 1], k)]
  }

  lemma ScaledAppend(s: seq<real>, x: real, k: real)
    ensures Scaled(s + [x], k) == Scaled(s, k) + [Mul(x, k)]
  {
    assert (s + [x])[..|s|] == s;
  }

  lemma {:induction false} ScaledAt(s: seq<real>, k: real, i: nat)
    requires i < |s|
    ensures Scaled(s, k)[i] == Mul(s[i], k)
  {
    if i < |s| - 1 {
      ScaledAt(s[..|s| - 1], k, i);
    }
  }

  lemma ScaleKeepsOrder(x: real, y: real, k: real)
    requires k > 0.0
    ensures x <= y <==> Mul(x, k) <= Mul(y, k)
  {
    if x <= y {
      assert (y - x) * k >= 0.0;
    } else {
      assert (x - y) * k > 0.0;
    }
  }

  lemma InsertAppend(s: seq<real>, last: real, x: real)
    ensures Insert(s + [last], x, AtMost) == if last <= x then s + [last] + [x] else Insert(s, x, AtMost) + [last]
  {
    assert (s + [last])[..|s|] == s;
  }

  lemma {:induction false} InsertScales(s: seq<real>, x: real, k: real)
    requires k > 0.0
    ensures Insert(Scaled(s, k), Mul(x, k), AtMost) == Scaled(Insert(s, x, AtMost), k)
  {
    if s == [] {
      ScaledAppend([], x, k);
    } else {
      var front, last := s[..|s| - 1], s[|s| - 1];
      ScaleKeepsOrder(last, x, k);
      InsertAppend(Scaled(front, k), Mul(last, k), Mul(x, k));
      if last <= x {
        ScaledAppend(s, x, k);
      } else {
        InsertScales(front, x, k);
        ScaledAppend(Insert(front, x, AtMost), last, k);
      }
    }
  }

  lemma SortedAppend(s: seq<real>, x: real)
    ensures Sorted(s + [x], AtMost) == Insert(Sorted(s, AtMost), x, AtMost)
  {
    assert (s + [x])[..|s|] == s;
  }

  /** Sorting commutes with a positive factor. */
  lemma {:induction false} SortedScales(s: seq<real>, k: real)
    requires k > 0.0
    ensures Sorted(Scaled(s, k), AtMost) == Scaled(Sorted(s, AtMost), k)
  {
    if s != [] {
      var front, last := s[..|s| - 1], s[|s| - 1];
      SortedScales(front, k);
      SortedAppend(Scaled(front, k), Mul(last, k));
      InsertScales(Sorted(front, AtMost), last, k);
    }
  }

  /** So does taking the median. */
  lemma MedianScales(s: seq<real>, k: real)
    requires s != [] && k > 0.0
    ensures Median(Sorted(Scaled(s, k), AtMost)) == Mul(Median(Sorted(s, AtMost)), k)
  {
    SortedScales(s, k);
    var sorted, mid := Sorted(s, AtMost), |s| / 2;
    ScaledAt(sorted, k, mid);
    if |s| % 2 == 0 {
      ScaledAt(sorted, k, mid - 1);
      MeanScales(sorted[mid - 1], sorted[mid], k);
    }
  }

  lemma MeanScales(x: real, y: real, k: real)
    ensures MeanOf(Mul(x, k), Mul(y, k)) == Mul(MeanOf(x, y), k)
  {
  }

  // ----- the drift of a group --------------------------------------------------------------

  /** The ratios of the group's paired arms, in the order they were read. */
  function Ratios(times: seq<Arm>, base: string): seq<real>
    requires Measured(times)
  {
    if times == [] then []
    else
      var a, before := times[|times| - 1], Ratios(times[..|times| - 1], base);
      if a.base == base && Paired(a) then before + [Ratio(a)] else before
  }

  /** The group's drift; a group with no paired arm has none, and `drift.get(base, 1.0)` makes it 1. */
  function Drift(times: seq<Arm>, base: string): real
    requires Measured(times)
  {
    if Ratios(times, base) == [] then 1.0 else Median(Sorted(Ratios(times, base), AtMost))
  }

  ghost predicate Gathered(perGroup: map<string, seq<real>>, times: seq<Arm>)
    requires Measured(times)
  {
    && (forall base: string :: base in perGroup <==> Ratios(times, base) != [])
    && (forall base: string | base in perGroup :: perGroup[base] == Ratios(times, base))
  }

  lemma GathersOneMore(perGroup: map<string, seq<real>>, times: seq<Arm>, a: Arm)
    requires Measured(times) && Positive(a.fwd) && Positive(a.rev) && Gathered(perGroup, times)
    ensures var before := if a.base in perGroup then perGroup[a.base] else [];
            Gathered(if Paired(a) then perGroup[a.base := before + [Ratio(a)]] else perGroup, times + [a])
  {
    assert (times + [a])[..|times|] == times;
  }

  /** A drift for each group with a paired arm. */
  ghost predicate IsDrift(drift: map<string, real>, times: seq<Arm>)
    requires Measured(times)
  {
    && (forall base: string :: base in drift <==> Ratios(times, base) != [])
    && (forall base: string | base in drift :: drift[base] == Drift(times, base))
  }

  method Gather(times: seq<Arm>) returns (perGroup: map<string, seq<real>>)
    requires Measured(times)
    ensures Gathered(perGroup, times)
  {
    perGroup := map[];
    for i := 0 to |times|
      invariant Gathered(perGroup, times[..i])
    {
      var a := times[i];
      GathersOneMore(perGroup, times[..i], a);
      assert times[..i] + [a] == times[..i + 1];
      if Paired(a) {
        var before := if a.base in perGroup then perGroup[a.base] else [];
        perGroup := perGroup[a.base := before + [Ratio(a)]];
      }
    }
    assert times[..|times|] == times;
  }

  /** `group_drift`: a pass that gathers each group's ratios, and a pass that takes their medians. */
  method GroupDrift(times: seq<Arm>) returns (out: map<string, real>)
    requires Measured(times)
    ensures IsDrift(out, times)
  {
    var perGroup := Gather(times);
    out := MedianOfEach(perGroup);
  }

  method MedianOfEach(perGroup: map<string, seq<real>>) returns (out: map<string, real>)
    requires forall base: string | base in perGroup :: perGroup[base] != []
    ensures out.Keys == perGroup.Keys
    ensures forall base: string | base in out :: out[base] == Median(Sorted(perGroup[base], AtMost))
  {
    out := map[];
    var left := perGroup.Keys;
    while left != {}
      invariant left <= perGroup.Keys && out.Keys == perGroup.Keys - left
      invariant forall base: string | base in out :: out[base] == Median(Sorted(perGroup[base], AtMost))
      decreases |left|
    {
      var base :| base in left;
      out := out[base := Median(Sorted(perGroup[base], AtMost))];
      left := left - {base};
    }
  }

  // ----- the verdicts ----------------------------------------------------------------------

  datatype Reading = Unpaired | Agree | OrdersDisagree

  /** A timing's interval, as a part of its median. */
  function Width(t: Timing): real
    requires t.mid != 0.0
  {
    Over(t.high - t.low, t.mid)
  }

  function MaxOf(x: real, y: real): real {
    if x < y then y else x
  }

  /** The wider of the two orders' intervals, in percent. */
  function Band(a: Arm): real
    requires Paired(a) && Positive(a.fwd) && Positive(a.rev)
  {
    MaxOf(Width(a.fwd.value), Width(a.rev.value)) * 100.0
  }

  /** How far the arm's ratio is from its group's, in percent. */
  function Apart(a: Arm, d: real): real
    requires Paired(a) && Positive(a.fwd)
  {
    Abs((if d != 0.0 then Over(Ratio(a), d) else 1.0) - 1.0) * 100.0
  }

  function Verdict(a: Arm, d: real): Reading
    requires Positive(a.fwd) && Positive(a.rev)
  {
    if !Paired(a) then Unpaired else if Apart(a, d) <= Band(a) then Agree else OrdersDisagree
  }

  /** The reversed median is where the drift puts it, to within a part w. */
  predicate Within(a: Arm, d: real, w: real)
    requires Paired(a)
  {
    Abs(a.rev.value.mid - Mul(a.fwd.value.mid, d)) <= Mul(w, Mul(a.fwd.value.mid, d))
  }

  /** An arm agrees exactly when its reversed median is as near to drifted forward as either interval is wide. */
  lemma AgreesIff(a: Arm, d: real)
    requires Paired(a) && Positive(a.fwd) && Positive(a.rev) && d > 0.0
    ensures Verdict(a, d) == Agree <==> Within(a, d, Width(a.fwd.value)) || Within(a, d, Width(a.rev.value))
  {
    var fm, rm := a.fwd.value.mid, a.rev.value.mid;
    ProductPositive(fm, d);
    QuotientOfQuotient(rm, fm, d);
    ApartIff(rm, Mul(fm, d), Width(a.fwd.value));
    ApartIff(rm, Mul(fm, d), Width(a.rev.value));
  }

  lemma QuotientOfQuotient(x: real, y: real, z: real)
    requires y > 0.0 && z > 0.0
    ensures Mul(y, z) > 0.0 && Over(Over(x, y), z) == Over(x, Mul(y, z))
  {
    ProductPositive(y, z);
    var q := x / y / z;
    assert q * z == x / y;
    assert q * (y * z) == (q * z) * y == x;
  }

  lemma ApartIff(x: real, y: real, w: real)
    requires y > 0.0
    ensures Abs(Over(x, y) - 1.0) <= w <==> Abs(x - y) <= Mul(w, y)
  {
    var e := Over(x, y) - 1.0;
    assert (e + 1.0) * y == x;
    assert x - y == e * y;
    ScaleKeepsOrder(Abs(e), w, y);
    assert Abs(e * y) == Abs(e) * y;
  }

  /** The verdict on arm i. */
  function ReadingOf(times: seq<Arm>, i: nat): Reading
    requires Measured(times) && i < |times|
  {
    Verdict(times[i], Drift(times, times[i].base))
  }

  function Lookup(drift: map<string, real>, base: string): real {
    if base in drift then drift[base] else 1.0
  }

  lemma LookupIsDrift(drift: map<string, real>, times: seq<Arm>, i: nat)
    requires Measured(times) && IsDrift(drift, times) && i < |times|
    ensures Verdict(times[i], Lookup(drift, times[i].base)) == ReadingOf(times, i)
  {
  }

  /** The readings of the first n arms, and which of them are unpaired. */
  function ReadingsOf(times: seq<Arm>, n: nat): seq<Reading>
    requires Measured(times) && n <= |times|
  {
    if n == 0 then [] else ReadingsOf(times, n - 1) + [ReadingOf(times, n - 1)]
  }

  function UnpairedOf(times: seq<Arm>, n: nat): seq<nat>
    requires n <= |times|
  {
    if n == 0 then [] else UnpairedOf(times, n - 1) + if Paired(times[n - 1]) then [] else [n - 1]
  }

  /** The loop of `main`. */
  method Readings(times: seq<Arm>) returns (readings: seq<Reading>, unpaired: seq<nat>)
    requires Measured(times)
    ensures readings == ReadingsOf(times, |times|) && unpaired == UnpairedOf(times, |times|)
  {
    var drift := GroupDrift(times);
    readings, unpaired := [], [];
    for i := 0 to |times|
      invariant readings == ReadingsOf(times, i) && unpaired == UnpairedOf(times, i)
    {
      var a := times[i];
      LookupIsDrift(drift, times, i);
      if a.fwd.None? || a.rev.None? {
        unpaired := unpaired + [i];
        readings := readings + [Unpaired];
        continue;
      }
      readings := readings + [Verdict(a, Lookup(drift, a.base))];
    }
  }

  // ----- what the verdicts do not depend on ------------------------------------------------

  function SlowedTiming(t: Timing, k: real): Timing {
    Timing(Mul(t.low, k), Mul(t.mid, k), Mul(t.high, k))
  }

  function Times(t: Option<Timing>, k: real): Option<Timing> {
    if t.None? then None else Some(SlowedTiming(t.value, k))
  }

  /** Every timing of one group multiplied: the forward ones by f, the reversed ones by r. */
  function Slowed(times: seq<Arm>, base: string, f: real, r: real): (slowed: seq<Arm>)
    ensures |slowed| == |times|
  {
    seq(|times|, i requires 0 <= i < |times| => SlowedArm(times[i], base, f, r))
  }

  function SlowedArm(a: Arm, base: string, f: real, r: real): Arm {
    if a.base == base then Arm(a.base, a.name, Times(a.fwd, f), Times(a.rev, r)) else a
  }

  lemma SlowedMeasured(times: seq<Arm>, base: string, f: real, r: real)
    requires Measured(times) && f > 0.0 && r > 0.0
    ensures Measured(Slowed(times, base, f, r))
  {
    forall i: nat | i < |times|
      ensures Positive(SlowedArm(times[i], base, f, r).fwd) && Positive(SlowedArm(times[i], base, f, r).rev)
    {
      if times[i].fwd.Some? {
        ProductPositive(times[i].fwd.value.mid, f);
      }
      if times[i].rev.Some? {
        ProductPositive(times[i].rev.value.mid, r);
      }
    }
  }

  /** A quotient of two scaled numbers is the quotient scaled by the quotient of the factors. */
  lemma QuotientScales(x: real, y: real, r: real, f: real)
    requires y > 0.0 && f > 0.0
    ensures Mul(y, f) > 0.0 && Over(Mul(x, r), Mul(y, f)) == Mul(Over(x, y), Over(r, f))
  {
    ProductPositive(y, f);
    var p, q := x / y, r / f;
    assert x == p * y && r == q * f;
    assert x * r == (p * q) * (y * f);
  }

  lemma WidthScales(t: Timing, k: real)
    requires t.mid > 0.0 && k > 0.0
    ensures Mul(t.mid, k) > 0.0 && Width(SlowedTiming(t, k)) == Width(t)
  {
    QuotientScales(t.high - t.low, t.mid, k, k);
    assert Mul(t.high - t.low, k) == Mul(t.high, k) - Mul(t.low, k);
    assert Over(k, k) == 1.0;
  }

  lemma {:induction false} RatiosScale(times: seq<Arm>, base: string, f: real, r: real, other: string)
    requires Measured(times) && f > 0.0 && r > 0.0
    ensures Measured(Slowed(times, base, f, r))
    ensures Ratios(Slowed(times, base, f, r), other)
         == if other == base then Scaled(Ratios(times, base), Over(r, f)) else Ratios(times, other)
  {
    SlowedMeasured(times, base, f, r);
    if times != [] {
      var n := |times| - 1;
      RatiosScale(times[..n], base, f, r, other);
      assert Slowed(times, base, f, r)[..n] == Slowed(times[..n], base, f, r);
      var a := times[n];
      if a.base == base && other == base && Paired(a) {
        QuotientScales(a.rev.value.mid, a.fwd.value.mid, r, f);
        ScaledAppend(Ratios(times[..n], base), Ratio(a), Over(r, f));
      }
    }
  }

  lemma DriftScales(times: seq<Arm>, base: string, f: real, r: real, other: string)
    requires Measured(times) && f > 0.0 && r > 0.0
    ensures Measured(Slowed(times, base, f, r))
    ensures other != base ==> Drift(Slowed(times, base, f, r), other) == Drift(times, other)
    ensures other == base && Ratios(times, base) != [] ==>
              Drift(Slowed(times, base, f, r), base) == Mul(Drift(times, base), Over(r, f))
  {
    RatiosScale(times, base, f, r, other);
    if other == base && Ratios(times, base) != [] {
      PositiveQuotient(r, f);
      MedianScales(Ratios(times, base), Over(r, f));
    }
  }

  /** A paired arm's group has a ratio. */
  lemma {:induction false} PairedHasRatio(times: seq<Arm>, i: nat)
    requires Measured(times) && i < |times| && Paired(times[i])
    ensures Ratios(times, times[i].base) != []
  {
    if i < |times| - 1 {
      PairedHasRatio(times[..|times| - 1], i);
    }
  }

  lemma SameQuotient(x: real, d: real, k: real)
    requires k > 0.0
    ensures Mul(d, k) == 0.0 <==> d == 0.0
    ensures d != 0.0 ==> Over(Mul(x, k), Mul(d, k)) == Over(x, d)
  {
    if d != 0.0 {
      assert d * k / k == d;
      var q := x / d;
      assert x == q * d;
      assert x * k == q * (d * k);
    }
  }

  /** Both sides of the comparison are what they were. */
  lemma VerdictScales(a: Arm, d: real, f: real, r: real)
    requires Positive(a.fwd) && Positive(a.rev) && f > 0.0 && r > 0.0
    requires Positive(Times(a.fwd, f)) && Positive(Times(a.rev, r))
    ensures Verdict(Arm(a.base, a.name, Times(a.fwd, f), Times(a.rev, r)), Mul(d, Over(r, f))) == Verdict(a, d)
  {
    if Paired(a) {
      WidthScales(a.fwd.value, f);
      WidthScales(a.rev.value, r);
      QuotientScales(a.rev.value.mid, a.fwd.value.mid, r, f);
      PositiveQuotient(r, f);
      SameQuotient(Ratio(a), d, Over(r, f));
      var a' := Arm(a.base, a.name, Times(a.fwd, f), Times(a.rev, r));
      assert Ratio(a') == Mul(Ratio(a), Over(r, f));
      assert Apart(a', Mul(d, Over(r, f))) == Apart(a, d);
      assert Band(a') == Band(a);
    }
  }

  /**
   No arm's verdict changes, in any group, when one group's reversed timings are all multiplied by a
   common positive factor, or its forward timings by another.
   */
  lemma VerdictsIgnoreDrift(times: seq<Arm>, base: string, f: real, r: real, i: nat)
    requires Measured(times) && f > 0.0 && r > 0.0 && i < |times|
    ensures Measured(Slowed(times, base, f, r))
    ensures ReadingOf(Slowed(times, base, f, r), i) == ReadingOf(times, i)
  {
    SlowedMeasured(times, base, f, r);
    var a := times[i];
    if Paired(a) {
      PairedHasRatio(times, i);
      DriftScales(times, base, f, r, a.base);
      assert Positive(Slowed(times, base, f, r)[i].fwd) && Positive(Slowed(times, base, f, r)[i].rev);
      if a.base == base {
        VerdictScales(a, Drift(times, base), f, r);
      }
    }
  }

  /**
   A group with one paired arm is its own median: whatever its orders read they agree, unless both
   their intervals are the wrong way round.
   */
  lemma LoneArmAgreesIff(times: seq<Arm>, i: nat)
    requires Measured(times) && i < |times| && Paired(times[i])
    requires |Ratios(times, times[i].base)| == 1
    ensures ReadingOf(times, i) == Agree <==>
            times[i].fwd.value.low <= times[i].fwd.value.high || times[i].rev.value.low <= times[i].rev.value.high
  {
    var a := times[i];
    LoneRatio(times, i);
    assert Sorted([Ratio(a)], AtMost) == [Ratio(a)];
    PositiveQuotient(a.rev.value.mid, a.fwd.value.mid);
    OverItself(Ratio(a));
    assert Apart(a, Ratio(a)) == 0.0;
    SignOfQuotient(a.fwd.value.high - a.fwd.value.low, a.fwd.value.mid);
    SignOfQuotient(a.rev.value.high - a.rev.value.low, a.rev.value.mid);
  }

  lemma SignOfQuotient(a: real, b: real)
    requires b > 0.0
    ensures Over(a, b) >= 0.0 <==> a >= 0.0
  {
  }

  lemma RatiosOneMore(times: seq<Arm>, a: Arm)
    requires Measured(times) && Paired(a) && Positive(a.fwd) && Positive(a.rev)
    ensures Measured(times + [a]) && Ratios(times + [a], a.base) == Ratios(times, a.base) + [Ratio(a)]
  {
    assert (times + [a])[..|times|] == times;
  }

  lemma RatiosOfTwo(a: Arm, b: Arm)
    requires Paired(a) && Paired(b) && Positive(a.fwd) && Positive(a.rev) && Positive(b.fwd) && Positive(b.rev)
    requires a.base == b.base
    ensures Measured([a, b]) && Ratios([a, b], a.base) == [Ratio(a), Ratio(b)]
  {
    RatiosOneMore([], a);
    RatiosOneMore([a], b);
    assert [] + [a] == [a] && [a] + [b] == [a, b];
  }

  lemma MedianOfTwo(x: real, y: real)
    requires x <= y
    ensures Median(Sorted([x, y], AtMost)) == MeanOf(x, y)
  {
    SortedPair(x, y);
  }

  /** The drift of two paired arms is half way between their ratios. */
  lemma DriftOfTwo(a: Arm, b: Arm)
    requires Paired(a) && Paired(b) && Positive(a.fwd) && Positive(a.rev) && Positive(b.fwd) && Positive(b.rev)
    requires a.base == b.base && Ratio(a) <= Ratio(b)
    ensures Measured([a, b])
    ensures Drift([a, b], a.base) == MeanOf(Ratio(a), Ratio(b))
  {
    RatiosOfTwo(a, b);
    MedianOfTwo(Ratio(a), Ratio(b));
  }

  lemma SortedPair(x: real, y: real)
    requires x <= y
    ensures Sorted([x, y], AtMost) == [x, y]
  {
    assert [x, y][..1] == [x] && [x][..0] == [];
    assert Sorted([x], AtMost) == [x];
  }

  /** A pair of orders with no width to either interval. */
  function Sharp(base: string, name: string, fwd: real, rev: real): Arm {
    Arm(base, name, Some(Timing(fwd, fwd, fwd)), Some(Timing(rev, rev, rev)))
  }

  /** Without width an arm agrees only with a drift that is its own ratio. */
  lemma SharpAgreesIff(base: string, name: string, fwd: real, rev: real, d: real)
    requires fwd > 0.0 && rev > 0.0 && d > 0.0
    ensures Verdict(Sharp(base, name, fwd, rev), d) == Agree <==> rev == Mul(fwd, d)
  {
    var a := Sharp(base, name, fwd, rev);
    AgreesIff(a, d);
    assert Width(a.fwd.value) == 0.0 && Width(a.rev.value) == 0.0;
    assert Mul(0.0, Mul(fwd, d)) == 0.0;
  }

  /** Two paired arms need not agree: with ratios 1 and 2, and no width, neither does with the drift of 1.5. */
  lemma TwoArmsCanDisagree(base: string)
    ensures var times := [Sharp(base, "a", 1.0, 1.0), Sharp(base, "b", 1.0, 2.0)];
            Measured(times) && ReadingOf(times, 0) == OrdersDisagree && ReadingOf(times, 1) == OrdersDisagree
  {
    var a, b := Sharp(base, "a", 1.0, 1.0), Sharp(base, "b", 1.0, 2.0);
    assert Ratio(a) == 1.0 && Ratio(b) == 2.0;
    DriftOfTwo(a, b);
    SharpAgreesIff(base, "a", 1.0, 1.0, 1.5);
    SharpAgreesIff(base, "b", 1.0, 2.0, 1.5);
  }

  lemma OverItself(x: real)
    requires x > 0.0
    ensures Over(x, x) == 1.0
  {
  }

  lemma {:induction false} LoneRatio(times: seq<Arm>, i: nat)
    requires Measured(times) && i < |times| && Paired(times[i])
    requires |Ratios(times, times[i].base)| == 1
    ensures Ratios(times, times[i].base) == [Ratio(times[i])]
  {
    var n := |times| - 1;
    if i < n {
      PairedHasRatio(times[..n], i);
      LoneRatio(times[..n], i);
    }
  }
}
