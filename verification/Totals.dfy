/** Sums over the members of a team: blocks, workers, callers, recorders. */
module Totals {

  function Total<T>(s: seq<T>, f: T -> nat): nat {
    if s == [] then 0 else Total(s[..|s| - 1], f) + f(s[|s| - 1])
  }

  /** When one member changes, the sum changes by that member's part. */
  lemma {:induction false} TotalUpdate<T>(s: seq<T>, f: T -> nat, i: nat, x: T)
    requires i < |s|
    ensures Total(s[i := x], f) == Total(s, f) - f(s[i]) + f(x)
  {
    var m := |s| - 1;
    if i == m {
      assert s[i := x][..m] == s[..m];
    } else {
      TotalUpdate(s[..m], f, i, x);
      assert s[i := x][..m] == s[..m][i := x];
    }
  }

  lemma TotalAppend<T>(s: seq<T>, f: T -> nat, x: T)
    ensures Total(s + [x], f) == Total(s, f) + f(x)
  {
    assert (s + [x])[..|s|] == s;
  }

  lemma {:induction false} TotalConcat<T>(s: seq<T>, t: seq<T>, f: T -> nat)
    ensures Total(s + t, f) == Total(s, f) + Total(t, f)
  {
    if t == [] {
      assert s + t == s;
    } else {
      TotalConcat(s, t[..|t| - 1], f);
      assert (s + t)[..|s + t| - 1] == s + t[..|t| - 1];
    }
  }

  lemma {:induction false} TotalAtMost<T>(s: seq<T>, f: T -> nat, bound: nat)
    requires forall i: nat | i < |s| :: f(s[i]) <= bound
    ensures Total(s, f) <= |s| * bound
  {
    if s != [] {
      var m := |s| - 1;
      TotalAtMost(s[..m], f, bound);
      assert |s| * bound == m * bound + bound;
    }
  }

  /** A member short of the bound keeps the whole sum short of it. */
  lemma {:induction false} TotalFallsShort<T>(s: seq<T>, f: T -> nat, bound: nat, i: nat)
    requires i < |s| && f(s[i]) < bound
    requires forall k: nat | k < |s| :: f(s[k]) <= bound
    ensures Total(s, f) < |s| * bound
  {
    var m := |s| - 1;
    assert |s| * bound == m * bound + bound;
    if i == m {
      TotalAtMost(s[..m], f, bound);
    } else {
      TotalFallsShort(s[..m], f, bound, i);
    }
  }

  lemma {:induction false} TotalExactly<T>(s: seq<T>, f: T -> nat, value: nat)
    requires forall i: nat | i < |s| :: f(s[i]) == value
    ensures Total(s, f) == |s| * value
  {
    if s != [] {
      var m := |s| - 1;
      TotalExactly(s[..m], f, value);
      assert |s| * value == m * value + value;
    }
  }

  /** A longer team whose first members each have at least as much has at least the sum. */
  lemma {:induction false} TotalMonotone<T>(s: seq<T>, f: T -> nat, s': seq<T>, f': T -> nat)
    requires |s| <= |s'| && forall i: nat | i < |s| :: f(s[i]) <= f'(s'[i])
    ensures Total(s, f) <= Total(s', f')
    decreases |s'|
  {
    if s' != [] {
      if |s| == |s'| {
        TotalMonotone(s[..|s| - 1], f, s'[..|s'| - 1], f');
      } else {
        TotalMonotone(s, f, s'[..|s'| - 1], f');
      }
    }
  }

  lemma {:induction false} TotalZero<T>(s: seq<T>, f: T -> nat)
    ensures Total(s, f) == 0 <==> forall i: nat | i < |s| :: f(s[i]) == 0
  {
    if s != [] {
      TotalZero(s[..|s| - 1], f);
    }
  }
}
