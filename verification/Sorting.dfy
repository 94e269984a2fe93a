/** The stable sort behind `list.sort`, as insertion after everything not greater. */
module Sorting {

  ghost predicate IsOrder<T(!new)>(le: (T, T) -> bool) {
    && (forall x: T, y: T :: le(x, y) || le(y, x))
    && (forall x: T, y: T, z: T :: le(x, y) && le(y, z) ==> le(x, z))
  }

  ghost predicate Ordered<T>(s: seq<T>, le: (T, T) -> bool) {
    forall i: nat, j: nat | i < j < |s| :: le(s[i], s[j])
  }

  function Insert<T>(s: seq<T>, x: T, le: (T, T) -> bool): (r: seq<T>)
    ensures |r| == |s| + 1
  {
    if s == [] || le(s[|s| - 1], x) then s + [x] else Insert(s[..|s| - 1], x, le) + [s[|s| - 1]]
  }

  function Sorted<T>(s: seq<T>, le: (T, T) -> bool): (r: seq<T>)
    ensures |r| == |s|
  {
    if s == [] then [] else Insert(Sorted(s[..|s| - 1], le), s[|s| - 1], le)
  }

  lemma {:induction false} InsertKeepsAll<T>(s: seq<T>, x: T, le: (T, T) -> bool)
    ensures multiset(Insert(s, x, le)) == multiset(s) + multiset{x}
  {
    if s != [] {
      var front, last := s[..|s| - 1], s[|s| - 1];
      assert s == front + [last];
      InsertKeepsAll(front, x, le);
    }
  }

  lemma {:induction false} InsertKeepsOrder<T(!new)>(s: seq<T>, x: T, le: (T, T) -> bool)
    requires IsOrder(le) && Ordered(s, le)
    ensures Ordered(Insert(s, x, le), le)
    ensures forall i: nat | i <= |s| :: Insert(s, x, le)[i] == x || Insert(s, x, le)[i] in s
  {
    if s != [] {
      InsertKeepsOrder(s[..|s| - 1], x, le);
    }
  }

  /** In order, and the same members as often. */
  lemma {:induction false} SortedSorts<T(!new)>(s: seq<T>, le: (T, T) -> bool)
    requires IsOrder(le)
    ensures Ordered(Sorted(s, le), le) && multiset(Sorted(s, le)) == multiset(s)
  {
    if s != [] {
      var front, last := s[..|s| - 1], s[|s| - 1];
      assert s == front + [last];
      SortedSorts(front, le);
      InsertKeepsOrder(Sorted(front, le), last, le);
      InsertKeepsAll(Sorted(front, le), last, le);
    }
  }

  predicate Level<T>(x: T, y: T, le: (T, T) -> bool) {
    le(x, y) && le(y, x)
  }

  /** The members level with k, in the order they stand in. */
  function LevelWith<T>(s: seq<T>, k: T, le: (T, T) -> bool): seq<T> {
    if s == [] then []
    else LevelWith(s[..|s| - 1], k, le) + if Level(s[|s| - 1], k, le) then [s[|s| - 1]] else []
  }

  lemma LevelWithAppend<T>(s: seq<T>, x: T, k: T, le: (T, T) -> bool)
    ensures LevelWith(s + [x], k, le) == LevelWith(s, k, le) + if Level(x, k, le) then [x] else []
  {
    assert (s + [x])[..|s|] == s;
  }

  lemma {:induction false} InsertIsStable<T(!new)>(s: seq<T>, x: T, k: T, le: (T, T) -> bool)
    requires IsOrder(le)
    ensures LevelWith(Insert(s, x, le), k, le) == LevelWith(s, k, le) + if Level(x, k, le) then [x] else []
  {
    LevelWithAppend(s, x, k, le);
    if s != [] && !le(s[|s| - 1], x) {
      var front, last := s[..|s| - 1], s[|s| - 1];
      InsertIsStable(front, x, k, le);
      LevelWithAppend(Insert(front, x, le), last, k, le);
    }
  }

  /** Members that are level keep their order. */
  lemma {:induction false} SortedIsStable<T(!new)>(s: seq<T>, k: T, le: (T, T) -> bool)
    requires IsOrder(le)
    ensures LevelWith(Sorted(s, le), k, le) == LevelWith(s, k, le)
  {
    if s != [] {
      SortedIsStable(s[..|s| - 1], k, le);
      InsertIsStable(Sorted(s[..|s| - 1], le), s[|s| - 1], k, le);
    }
  }
}
