/**
 The one-pass statistics of benches/mimt_coupled.rs over the reals: the mean and variance loop of
 `mcmc_accept`, and the incremental means of `mcts_backprop`.
 */
module OnlineMoments {
  import opened Reals

  function Sum(s: seq<real>): real {
    if s == [] then 0.0 else Sum(s[..|s| - 1]) + s[|s| - 1]
  }

  function Mean(s: seq<real>): real
    requires s != []
  {
    Over(Sum(s), |s| as real)
  }

  function Square(x: real): real {
    x * x
  }

  /** The squared distances of the values from a centre, added up. */
  function Spread(s: seq<real>, centre: real): real {
    if s == [] then 0.0 else Spread(s[..|s| - 1], centre) + Square(s[|s| - 1] - centre)
  }

  /** The variance by its definition: a pass for the mean, then a pass for the distances from it. */
  function Variance(s: seq<real>): real
    requires s != []
  {
    Over(Spread(s, Mean(s)), |s| as real)
  }

  /** What n squared distances gain together when the centre moves from c to d. */
  function Gain(sum: real, n: real, c: real, d: real): real {
    2.0 * (c - d) * (sum - n * c) + n * Square(c - d)
  }

  lemma GainOfOneMore(sum: real, n: real, x: real, c: real, d: real)
    ensures Gain(sum + x, n + 1.0, c, d) + Square(x - c) == Gain(sum, n, c, d) + Square(x - d)
  {
  }

  lemma {:induction false} SpreadMoved(s: seq<real>, c: real, d: real)
    ensures Spread(s, d) == Spread(s, c) + Gain(Sum(s), |s| as real, c, d)
  {
    if s == [] {
      GainFromMean(0.0, 0.0, c, d);
    } else {
      var front, x := s[..|s| - 1], s[|s| - 1];
      SpreadMoved(front, c, d);
      GainOfOneMore(Sum(front), |front| as real, x, c, d);
      assert |s| as real == |front| as real + 1.0;
    }
  }

  /** Moving away from the mean only adds. */
  lemma GainFromMean(sum: real, n: real, c: real, d: real)
    requires sum == Mul(n, c)
    ensures Gain(sum, n, c, d) == Mul(n, Square(c - d))
  {
    assert 2.0 * (c - d) * (sum - n * c) == 2.0 * (c - d) * 0.0;
  }

  lemma Quotient(q: real, d: real, total: real)
    requires d > 0.0 && Mul(d, q) == total
    ensures q == Over(total, d)
  {
  }

  /** What the loop has after the values s. */
  predicate Summarizes(s: seq<real>, mean: real, m2: real) {
    Sum(s) == Mul(|s| as real, mean) && m2 == Spread(s, mean)
  }

  /** One turn of the loop, from the mean of n values to the mean of one value more. */
  lemma OneMoreValue(s: seq<real>, n: real, mean: real, v: real, mean': real)
    requires n == |s| as real && Sum(s) == Mul(n, mean) && mean' == mean + Over(v - mean, n + 1.0)
    ensures Sum(s + [v]) == Mul(n + 1.0, mean')
    ensures Spread(s + [v], mean') == Spread(s, mean) + Mul(v - mean, v - mean')
  {
    assert (s + [v])[..|s|] == s;
    SpreadMoved(s, mean, mean');
    GainFromMean(Sum(s), n, mean, mean');
    OneMoreIdentity(n, mean, v, mean', Over(v - mean, n + 1.0));
  }

  lemma SummarizesOneMore(s: seq<real>, mean: real, m2: real, v: real, n: real, mean': real, m2': real)
    requires Summarizes(s, mean, m2) && n == (|s| + 1) as real
    requires mean' == mean + Over(v - mean, n) && m2' == m2 + Mul(v - mean, v - mean')
    ensures Summarizes(s + [v], mean', m2')
  {
    var k := |s| as real;
    assert n == k + 1.0 && |s + [v]| as real == n;
    OneMoreValue(s, k, mean, v, mean');
  }

  lemma OneMoreIdentity(n: real, mean: real, v: real, mean': real, e: real)
    requires n >= 0.0 && e == Over(v - mean, n + 1.0) && mean' == mean + e
    ensures Mul(n, mean) + v == Mul(n + 1.0, mean')
    ensures Mul(n, Square(mean - mean')) + Square(v - mean') == Mul(v - mean, v - mean')
  {
    assert e * (n + 1.0) == v - mean;
    assert v - mean' == e * n && mean - mean' == -e;
    assert Square(mean - mean') == e * e;
    assert Square(v - mean') == (e * n) * (e * n);
    assert (v - mean) * (v - mean') == (e * (n + 1.0)) * (e * n);
  }

  /** The loop of `mcmc_accept`: one pass, for the mean and variance of the definition. */
  method Welford(proposal: seq<real>) returns (mean: real, variance: real)
    requires proposal != []
    ensures mean == Mean(proposal) && variance == Variance(proposal)
  {
    mean := 0.0;
    var m2 := 0.0;
    for i := 0 to |proposal|
      invariant Summarizes(proposal[..i], mean, m2)
    {
      ghost var before, m2Before := mean, m2;
      var v := proposal[i];
      var n := (i + 1) as real;
      var delta := v - mean;
      mean := mean + Over(delta, n);
      var delta2 := v - mean;
      m2 := m2 + Mul(delta, delta2);
      SummarizesOneMore(proposal[..i], before, m2Before, v, n, mean, m2);
      assert proposal[..i] + [v] == proposal[..i + 1];
    }
    assert proposal[..|proposal|] == proposal;
    Quotient(mean, |proposal| as real, Sum(proposal));
    variance := Over(m2, |proposal| as real);
  }

  /** A sum of squares: never negative, and zero only if every value is the centre. */
  lemma {:induction false} SpreadZeroIff(s: seq<real>, centre: real)
    ensures Spread(s, centre) >= 0.0
    ensures Spread(s, centre) == 0.0 <==> forall i: nat | i < |s| :: s[i] == centre
  {
    if s != [] {
      var front, x := s[..|s| - 1], s[|s| - 1];
      SpreadZeroIff(front, centre);
      SquareZeroIff(x - centre, Square(x - centre));
      assert forall i: nat | i < |front| :: front[i] == s[i];
    }
  }

  lemma SquareZeroIff(x: real, y: real)
    requires y == Square(x)
    ensures y >= 0.0 && (y == 0.0 <==> x == 0.0)
  {
    if x != 0.0 {
      assert y / x == x;
    }
  }

  lemma VarianceZeroIff(s: seq<real>)
    requires s != []
    ensures Variance(s) >= 0.0
    ensures Variance(s) == 0.0 <==> forall i: nat | i < |s| :: s[i] == s[0]
  {
    SpreadZeroIff(s, Mean(s));
    if forall i: nat | i < |s| :: s[i] == s[0] {
      SumOfEqual(s, s[0]);
    }
  }

  lemma {:induction false} SumOfEqual(s: seq<real>, x: real)
    requires forall i: nat | i < |s| :: s[i] == x
    ensures Sum(s) == |s| as real * x
  {
    if s != [] {
      SumOfEqual(s[..|s| - 1], x);
    }
  }

  // ----- the incremental mean up a tree path -----------------------------------------------

  const PARENT_HOPS: nat := 40

  /** The part of leaf number i that hop number `hop` adds. */
  function Contribution(leaf: seq<real>, i: nat, hop: nat): real
    requires leaf != []
  {
    leaf[(hop * 13 + i) % |leaf|]
  }

  function Contributions(leaf: seq<real>, i: nat, hops: nat): real
    requires leaf != []
  {
    if hops == 0 then 0.0 else Contributions(leaf, i, hops - 1) + Contribution(leaf, i, hops - 1)
  }

  /** How often the parents of leaf number i count as visited before the value comes back up. */
  function VisitsBefore(i: nat): nat {
    i % 0x100
  }

  /** The plain mean of `visits` copies of the value and the first `hops` contributions. */
  function PooledMean(value: real, visits: nat, leaf: seq<real>, i: nat, hops: nat): real
    requires leaf != [] && visits + hops > 0
  {
    Over(Mul(value, visits as real) + Contributions(leaf, i, hops), (visits + hops) as real)
  }

  /** One hop: a mean of `visits - 1` values takes one value more. */
  lemma OneMoreHop(q: real, visits: real, x: real)
    requires visits > 0.0
    ensures Mul(visits, q + Over(x - q, visits)) == Mul(visits - 1.0, q) + x
  {
    assert (x - q) / visits * visits == x - q;
  }

  /** The walk from one leaf. Starting at one visit, the value itself counts for nothing. */
  method WalkUp(value: real, leaf: seq<real>, i: nat, firstVisits: real, hops: nat) returns (q: real)
    requires leaf != [] && firstVisits >= 1.0
    ensures Mul(firstVisits + hops as real - 1.0, q) == Mul(value, firstVisits - 1.0) + Contributions(leaf, i, hops)
  {
    q := value;
    assert Mul(firstVisits - 1.0, value) == Mul(value, firstVisits - 1.0);
    var visits := firstVisits;
    for hop := 0 to hops
      invariant visits == firstVisits + hop as real
      invariant Mul(visits - 1.0, q) == Mul(value, firstVisits - 1.0) + Contributions(leaf, i, hop)
    {
      var contrib := leaf[(hop * 13 + i) % |leaf|];
      OneMoreHop(q, visits, contrib);
      q := q + Over(contrib - q, visits);
      visits := visits + 1.0;
    }
  }

  lemma WalkIsPooledMean(q: real, value: real, visits: nat, leaf: seq<real>, i: nat, hops: nat)
    requires leaf != [] && visits + hops > 0
    requires Mul(visits as real + 1.0 + hops as real - 1.0, q)
          == Mul(value, visits as real + 1.0 - 1.0) + Contributions(leaf, i, hops)
    ensures q == PooledMean(value, visits, leaf, i, hops)
  {
    assert visits as real + 1.0 + hops as real - 1.0 == (visits + hops) as real;
    assert visits as real + 1.0 - 1.0 == visits as real;
    Quotient(q, (visits + hops) as real, Mul(value, visits as real) + Contributions(leaf, i, hops));
  }

  /** What leaf number i passes up, added over the first k leaves. */
  function PooledSum(value: real, leaves: seq<seq<real>>, k: nat): real
    requires k <= |leaves| && forall i: nat | i < |leaves| :: leaves[i] != []
  {
    if k == 0 then 0.0
    else PooledSum(value, leaves, k - 1) + PooledMean(value, VisitsBefore(k - 1), leaves[k - 1], k - 1, PARENT_HOPS)
  }

  method Backprop(leaves: seq<seq<real>>, value: real) returns (r: real)
    requires leaves != [] && forall i: nat | i < |leaves| :: leaves[i] != []
    ensures r == Over(PooledSum(value, leaves, |leaves|), |leaves| as real)
  {
    var accum := 0.0;
    for i := 0 to |leaves|
      invariant accum == PooledSum(value, leaves, i)
    {
      var firstVisits := VisitsBefore(i) as real + 1.0;
      var q := WalkUp(value, leaves[i], i, firstVisits, PARENT_HOPS);
      WalkIsPooledMean(q, value, VisitsBefore(i), leaves[i], i, PARENT_HOPS);
      accum := accum + q;
    }
    r := Over(accum, |leaves| as real);
  }

  /** The value the device returned reaches a leaf's result exactly if the leaf's number is no multiple of 256. */
  lemma ValueCountsIff(leaf: seq<real>, i: nat, a: real, b: real)
    requires leaf != [] && a != b
    ensures PooledMean(a, VisitsBefore(i), leaf, i, PARENT_HOPS) != PooledMean(b, VisitsBefore(i), leaf, i, PARENT_HOPS)
       <==> i % 256 != 0
  {
    QuotientsDiffer(a, b, VisitsBefore(i) as real, Contributions(leaf, i, PARENT_HOPS),
                    (VisitsBefore(i) + PARENT_HOPS) as real);
  }

  lemma QuotientsDiffer(a: real, b: real, n: real, c: real, d: real)
    requires d > 0.0 && a != b
    ensures Over(Mul(a, n) + c, d) != Over(Mul(b, n) + c, d) <==> n != 0.0
  {
    if n == 0.0 {
      assert Mul(a, n) == 0.0 && Mul(b, n) == 0.0;
    } else {
      var x, y := Over(Mul(a, n) + c, d), Over(Mul(b, n) + c, d);
      assert x * d == a * n + c && y * d == b * n + c;
      assert (x - y) * d == (a - b) * n;
      assert (a - b) * n != 0.0;
    }
  }

  lemma ContributionBetween(leaf: seq<real>, i: nat, hop: nat, lo: real, hi: real)
    requires leaf != [] && forall j: nat | j < |leaf| :: lo <= leaf[j] <= hi
    ensures lo <= Contribution(leaf, i, hop) <= hi
  {
    var at: nat := (hop * 13 + i) % |leaf|;
    assert lo <= leaf[at] <= hi;
  }

  lemma OneMoreBetween(total: real, n: real, x: real, lo: real, hi: real)
    requires Mul(lo, n) <= total <= Mul(hi, n) && lo <= x <= hi
    ensures Mul(lo, n + 1.0) <= total + x <= Mul(hi, n + 1.0)
  {
  }

  lemma {:induction false} ContributionsBetween(leaf: seq<real>, i: nat, hops: nat, lo: real, hi: real)
    requires leaf != [] && forall j: nat | j < |leaf| :: lo <= leaf[j] <= hi
    ensures Mul(lo, hops as real) <= Contributions(leaf, i, hops) <= Mul(hi, hops as real)
  {
    if hops > 0 {
      ContributionsBetween(leaf, i, hops - 1, lo, hi);
      ContributionBetween(leaf, i, hops - 1, lo, hi);
      OneMoreBetween(Contributions(leaf, i, hops - 1), (hops - 1) as real, Contribution(leaf, i, hops - 1), lo, hi);
      assert (hops - 1) as real + 1.0 == hops as real;
    }
  }

  /** A leaf passes up nothing outside the range of its own features and the value. */
  lemma PooledMeanBetween(value: real, visits: nat, leaf: seq<real>, i: nat, hops: nat, lo: real, hi: real)
    requires leaf != [] && visits + hops > 0
    requires lo <= value <= hi && forall j: nat | j < |leaf| :: lo <= leaf[j] <= hi
    ensures lo <= PooledMean(value, visits, leaf, i, hops) <= hi
  {
    ContributionsBetween(leaf, i, hops, lo, hi);
    PoolBetween(value, visits as real, Contributions(leaf, i, hops), hops as real, lo, hi);
    assert visits as real + hops as real == (visits + hops) as real;
    QuotientBetween(Mul(value, visits as real) + Contributions(leaf, i, hops), (visits + hops) as real, lo, hi);
  }

  lemma PoolBetween(value: real, n: real, rest: real, m: real, lo: real, hi: real)
    requires n >= 0.0 && lo <= value <= hi && Mul(lo, m) <= rest <= Mul(hi, m)
    ensures Mul(lo, n + m) <= Mul(value, n) + rest <= Mul(hi, n + m)
  {
    assert (value - lo) * n >= 0.0 && (hi - value) * n >= 0.0;
  }

  lemma QuotientBetween(total: real, d: real, lo: real, hi: real)
    requires d > 0.0 && Mul(lo, d) <= total <= Mul(hi, d)
    ensures lo <= Over(total, d) <= hi
  {
    assert total / d * d == total;
  }
}
