/**
 The chunked search of examples/observe_grep.rs: `count_matches` over a slice, and `grep_one_iter`,
 which counts in chunks that each reach `overlap` bytes into the next and adds the counts up.
 */
module OverlappedGrep {
  import opened Layout

  type Byte = b: int | 0 <= b < 256

  /** The needle starts at position p. */
  predicate IsMatch(hay: seq<Byte>, needle: seq<Byte>, p: nat) {
    p + |needle| <= |hay| && forall i: nat | i < |needle| :: hay[p + i] == needle[i]
  }

  /** The slice comparison the loop makes, and the test of the first byte it makes before it. */
  lemma SliceIsMatch(hay: seq<Byte>, needle: seq<Byte>, p: nat)
    requires needle != [] && p + |needle| <= |hay|
    ensures IsMatch(hay, needle, p) <==> hay[p] == needle[0] && hay[p..p + |needle|] == needle
  {
    if IsMatch(hay, needle, p) {
      assert hay[p + 0] == needle[0];
    }
  }

  /** How many positions of lo..hi are marked. */
  function Count(marked: nat -> bool, lo: nat, hi: nat): nat {
    if hi <= lo then 0 else Count(marked, lo, hi - 1) + (if marked(hi - 1) then 1 else 0)
  }

  lemma {:induction false} CountSplit(marked: nat -> bool, lo: nat, mid: nat, hi: nat)
    requires lo <= mid <= hi
    ensures Count(marked, lo, hi) == Count(marked, lo, mid) + Count(marked, mid, hi)
  {
    if mid < hi {
      CountSplit(marked, lo, mid, hi - 1);
    }
  }

  function Starts(hay: seq<Byte>, needle: seq<Byte>): nat -> bool {
    (p: nat) => IsMatch(hay, needle, p)
  }

  /** How many positions in lo..hi the needle starts at. */
  function Matches(hay: seq<Byte>, needle: seq<Byte>, lo: nat, hi: nat): nat {
    Count(Starts(hay, needle), lo, hi)
  }

  /** No match starts where the rest is shorter than the needle. */
  lemma {:induction false} TooFar(hay: seq<Byte>, needle: seq<Byte>, lo: nat, hi: nat)
    requires lo + |needle| > |hay|
    ensures Matches(hay, needle, lo, hi) == 0
  {
    if lo < hi {
      TooFar(hay, needle, lo, hi - 1);
    }
  }

  /** `count_matches`. The empty needle, whose first byte it reads, is not one it takes. */
  method CountMatches(hay: seq<Byte>, needle: seq<Byte>) returns (n: nat)
    requires needle != []
    ensures n == Matches(hay, needle, 0, |hay|)
  {
    if |hay| < |needle| {
      TooFar(hay, needle, 0, |hay|);
      return 0;
    }
    n := 0;
    var last := |hay| - |needle|;
    var i := 0;
    while i <= last
      invariant i <= last + 1
      invariant n == Matches(hay, needle, 0, i)
    {
      SliceIsMatch(hay, needle, i);
      if hay[i] == needle[0] && hay[i..i + |needle|] == needle {
        n := n + 1;
      }
      i := i + 1;
    }
    TooFar(hay, needle, i, |hay|);
    CountSplit(Starts(hay, needle), 0, i, |hay|);
  }

  // ----- one chunk -------------------------------------------------------------------------

  function ChunkEnd(hay: seq<Byte>, chunk: nat, overlap: nat, ci: nat): nat {
    Min(PartStart(chunk, ci) + chunk + overlap, |hay|)
  }

  /** What is counted for chunk ci: the matches that lie whole within it and its overlap. */
  function ChunkCount(hay: seq<Byte>, needle: seq<Byte>, chunk: nat, overlap: nat, ci: nat): nat
  {
    if PartStart(chunk, ci) > |hay| then 0
    else
      var slice := hay[PartStart(chunk, ci)..ChunkEnd(hay, chunk, overlap, ci)];
      Matches(slice, needle, 0, |slice|)
  }

  /** Matches in a slice are the matches of the whole that end inside it. */
  lemma {:induction false} SliceMatches(hay: seq<Byte>, needle: seq<Byte>, s: nat, e: nat, upto: nat)
    requires s <= e <= |hay| && upto <= e - s
    requires upto > 0 ==> upto - 1 + |needle| <= e - s
    ensures Matches(hay[s..e], needle, 0, upto) == Matches(hay, needle, s, s + upto)
  {
    if upto > 0 {
      SliceMatches(hay, needle, s, e, upto - 1);
      var p := upto - 1;
      assert IsMatch(hay[s..e], needle, p) <==> IsMatch(hay, needle, s + p);
    }
  }

  /** Counted inside s..e, every match of the whole that lies in s..e is counted. */
  lemma SliceCount(hay: seq<Byte>, needle: seq<Byte>, s: nat, e: nat)
    requires needle != [] && s <= e <= |hay|
    ensures Matches(hay[s..e], needle, 0, e - s)
         == Matches(hay, needle, s, if e - s < |needle| then s else e - |needle| + 1)
  {
    var upto := if e - s < |needle| then 0 else e - s - |needle| + 1;
    SliceMatches(hay, needle, s, e, upto);
    TooFar(hay[s..e], needle, upto, e - s);
    CountSplit(Starts(hay[s..e], needle), 0, upto, e - s);
  }

  /** With an overlap `extra` past the least that reaches every match, a chunk also counts the next chunk's first `extra` starts. */
  lemma ChunkReach(hay: seq<Byte>, needle: seq<Byte>, chunk: nat, extra: nat, ci: nat)
    requires needle != []
    ensures ChunkCount(hay, needle, chunk, |needle| - 1 + extra, ci)
         == Matches(hay, needle, PartStart(chunk, ci), Min(PartStart(chunk, ci) + chunk + extra, |hay|))
  {
    var s := PartStart(chunk, ci);
    if s <= |hay| {
      var e, reach := ChunkEnd(hay, chunk, |needle| - 1 + extra, ci), Min(s + chunk + extra, |hay|);
      SliceCount(hay, needle, s, e);
      EndIsReach(hay, needle, s, e, reach);
    }
  }

  /** Between the last start the slice has room for and the reach, no match starts. */
  lemma EndIsReach(hay: seq<Byte>, needle: seq<Byte>, s: nat, e: nat, reach: nat)
    requires needle != [] && s <= e <= |hay| && s <= reach && e == Min(reach + |needle| - 1, |hay|)
    ensures Matches(hay, needle, s, if e - s < |needle| then s else e - |needle| + 1) == Matches(hay, needle, s, reach)
  {
    var stop := if e - s < |needle| then s else e - |needle| + 1;
    if stop < reach {
      TooFar(hay, needle, stop, reach);
    }
    CountSplit(Starts(hay, needle), s, stop, reach);
  }

  // ----- all chunks ------------------------------------------------------------------------

  function Sum(s: seq<nat>): nat {
    if s == [] then 0 else Sum(s[..|s| - 1]) + s[|s| - 1]
  }

  function ChunkCounts(hay: seq<Byte>, needle: seq<Byte>, chunk: nat, overlap: nat, n: nat): (counts: seq<nat>)
    ensures |counts| == n
  {
    seq(n, ci requires 0 <= ci < n => ChunkCount(hay, needle, chunk, overlap, ci))
  }

  function SumOfChunks(hay: seq<Byte>, needle: seq<Byte>, chunk: nat, overlap: nat, n: nat): nat {
    Sum(ChunkCounts(hay, needle, chunk, overlap, n))
  }

  /** The matches chunk ci and the chunk after it both count: those starting within `extra` of the boundary between them. */
  function SharedMatches(hay: seq<Byte>, needle: seq<Byte>, chunk: nat, extra: nat, ci: nat): nat {
    Matches(hay, needle, Min(PartStart(chunk, ci + 1), |hay|), Min(PartStart(chunk, ci + 1) + extra, |hay|))
  }

  function SharedCounts(hay: seq<Byte>, needle: seq<Byte>, chunk: nat, extra: nat, n: nat): (counts: seq<nat>)
    ensures |counts| == n
  {
    seq(n, ci requires 0 <= ci < n => SharedMatches(hay, needle, chunk, extra, ci))
  }

  /** The matches counted twice by the first n chunks. */
  function CountedTwice(hay: seq<Byte>, needle: seq<Byte>, chunk: nat, extra: nat, n: nat): nat {
    Sum(SharedCounts(hay, needle, chunk, extra, n))
  }

  lemma SharedOneMore(hay: seq<Byte>, needle: seq<Byte>, chunk: nat, extra: nat, n: nat)
    requires n > 0
    ensures CountedTwice(hay, needle, chunk, extra, n)
         == CountedTwice(hay, needle, chunk, extra, n - 1) + SharedMatches(hay, needle, chunk, extra, n - 1)
  {
    assert SharedCounts(hay, needle, chunk, extra, n)[..n - 1] == SharedCounts(hay, needle, chunk, extra, n - 1);
  }

  /** What the whole scan has counted before each chunk starts. */
  function WholeCounts(hay: seq<Byte>, needle: seq<Byte>, chunk: nat, n: nat): (counts: seq<nat>)
    ensures |counts| == n + 1
  {
    seq(n + 1, ci requires 0 <= ci <= n => Matches(hay, needle, 0, Min(PartStart(chunk, ci), |hay|)))
  }

  /** Counts that each add to a running whole, and something besides, add up to the whole and all of that. */
  lemma {:induction false} Telescopes(counts: seq<nat>, whole: seq<nat>, besides: seq<nat>)
    requires |counts| == |besides| && |whole| == |counts| + 1 && whole[0] == 0
    requires forall i: nat | i < |counts| :: whole[i] + counts[i] == whole[i + 1] + besides[i]
    ensures Sum(counts) == whole[|counts|] + Sum(besides)
  {
    if counts != [] {
      var n := |counts| - 1;
      Telescopes(counts[..n], whole[..n + 1], besides[..n]);
    }
  }

  lemma SplitAtBoundary(marked: nat -> bool, length: nat, start: nat, next: nat, extra: nat)
    requires start <= next
    ensures Count(marked, 0, Min(start, length)) + Count(marked, start, Min(next + extra, length))
         == Count(marked, 0, Min(next, length)) + Count(marked, Min(next, length), Min(next + extra, length))
  {
    if start <= length {
      CountSplit(marked, 0, start, Min(next, length));
      CountSplit(marked, start, Min(next, length), Min(next + extra, length));
    }
  }

  /** One more chunk: what it counts is what it adds to the whole and what it shares. */
  lemma OneMoreChunk(hay: seq<Byte>, needle: seq<Byte>, chunk: nat, extra: nat, ci: nat)
    requires needle != []
    ensures Matches(hay, needle, 0, Min(PartStart(chunk, ci), |hay|)) + ChunkCount(hay, needle, chunk, |needle| - 1 + extra, ci)
         == Matches(hay, needle, 0, Min(PartStart(chunk, ci + 1), |hay|)) + SharedMatches(hay, needle, chunk, extra, ci)
  {
    ChunkReach(hay, needle, chunk, extra, ci);
    SplitAtBoundary(Starts(hay, needle), |hay|, PartStart(chunk, ci), PartStart(chunk, ci + 1), extra);
  }

  lemma SumIsWholePlusTwice(hay: seq<Byte>, needle: seq<Byte>, chunk: nat, extra: nat, n: nat)
    requires needle != []
    ensures SumOfChunks(hay, needle, chunk, |needle| - 1 + extra, n)
         == Matches(hay, needle, 0, Min(PartStart(chunk, n), |hay|)) + CountedTwice(hay, needle, chunk, extra, n)
  {
    forall i: nat | i < n
      ensures WholeCounts(hay, needle, chunk, n)[i] + ChunkCounts(hay, needle, chunk, |needle| - 1 + extra, n)[i]
           == WholeCounts(hay, needle, chunk, n)[i + 1] + SharedCounts(hay, needle, chunk, extra, n)[i]
    {
      OneMoreChunk(hay, needle, chunk, extra, i);
    }
    Telescopes(ChunkCounts(hay, needle, chunk, |needle| - 1 + extra, n), WholeCounts(hay, needle, chunk, n),
               SharedCounts(hay, needle, chunk, extra, n));
  }

  predicate MatchAt(hay: seq<Byte>, needle: seq<Byte>, chunk: nat, k: nat) {
    IsMatch(hay, needle, PartStart(chunk, k))
  }

  /** The boundaries, at the ends of the first n chunks, at which a match starts. */
  function BoundaryMatches(hay: seq<Byte>, needle: seq<Byte>, chunk: nat, n: nat): nat {
    if n == 0 then 0
    else BoundaryMatches(hay, needle, chunk, n - 1) + (if MatchAt(hay, needle, chunk, n) then 1 else 0)
  }

  lemma {:induction false} NoBoundaryIff(hay: seq<Byte>, needle: seq<Byte>, chunk: nat, n: nat)
    ensures BoundaryMatches(hay, needle, chunk, n) == 0 <==>
            forall k: nat | 1 <= k <= n :: !MatchAt(hay, needle, chunk, k)
  {
    if n > 0 {
      NoBoundaryIff(hay, needle, chunk, n - 1);
    }
  }

  lemma {:induction false} TwiceAtBoundaries(hay: seq<Byte>, needle: seq<Byte>, chunk: nat, n: nat)
    requires needle != []
    ensures CountedTwice(hay, needle, chunk, 1, n) == BoundaryMatches(hay, needle, chunk, n)
  {
    if n > 0 {
      TwiceAtBoundaries(hay, needle, chunk, n - 1);
      SharedOneMore(hay, needle, chunk, 1, n);
      var b := Min(PartStart(chunk, n), |hay|);
      if PartStart(chunk, n) < |hay| {
        assert Matches(hay, needle, b, b + 1) == Matches(hay, needle, b, b) + (if IsMatch(hay, needle, b) then 1 else 0);
      }
    }
  }

  lemma {:induction false} NothingTwice(hay: seq<Byte>, needle: seq<Byte>, chunk: nat, n: nat)
    ensures CountedTwice(hay, needle, chunk, 0, n) == 0
  {
    if n > 0 {
      NothingTwice(hay, needle, chunk, n - 1);
      SharedOneMore(hay, needle, chunk, 0, n);
    }
  }

  // ----- grep_one_iter ---------------------------------------------------------------------

  /** A run of chunk slots one leaf is handed. */
  datatype Slab = Slab(start: nat, len: nat)

  ghost predicate InSlab(slabs: seq<Slab>, k: nat, ci: nat) {
    k < |slabs| && slabs[k].start <= ci < slabs[k].start + slabs[k].len
  }

  /** However the slots are split and in whatever order the leaves run, no slot is left out. */
  ghost predicate IsSplit(slabs: seq<Slab>, n: nat) {
    && (forall k: nat | k < |slabs| :: slabs[k].start + slabs[k].len <= n)
    && (forall ci: nat | ci < n :: Taken(slabs, ci))
  }

  ghost predicate Taken(slabs: seq<Slab>, ci: nat) {
    exists k: nat :: InSlab(slabs, k, ci)
  }

  function ChunksOf(length: nat, chunk: nat): (n: nat)
    requires chunk > 0
    ensures length <= PartStart(chunk, n) < length + chunk
  {
    var n := (length + chunk - 1) / chunk;
    assert length + chunk - 1 == n * chunk + (length + chunk - 1) % chunk;
    PartStartIsProduct(chunk, n);
    n
  }

  lemma {:induction false} EveryStartInside(length: nat, chunk: nat, ci: nat)
    requires chunk > 0 && ci < ChunksOf(length, chunk)
    ensures PartStart(chunk, ci) < length
  {
    PartsBefore(chunk, ci, ChunksOf(length, chunk));
  }

  /** One leaf: each slot of its slab gets its own chunk's count, whatever it held. */
  method CountSlab(hay: seq<Byte>, needle: seq<Byte>, chunk: nat, overlap: nat, counts: array<nat>, slab: Slab)
    requires needle != [] && slab.start + slab.len <= counts.Length
    requires forall ci: nat | ci < counts.Length :: PartStart(chunk, ci) <= |hay|
    modifies counts
    ensures forall ci: nat | ci < counts.Length ::
              counts[ci] == if slab.start <= ci < slab.start + slab.len then ChunkCount(hay, needle, chunk, overlap, ci)
                            else old(counts[ci])
  {
    for i := 0 to slab.len
      invariant forall ci: nat | ci < counts.Length ::
                  counts[ci] == if slab.start <= ci < slab.start + i then ChunkCount(hay, needle, chunk, overlap, ci)
                                else old(counts[ci])
    {
      var ci := slab.start + i;
      PartStartIsProduct(chunk, ci);
      var s := ci * chunk;
      var e := Min(s + chunk + overlap, |hay|);
      counts[ci] := CountMatches(hay[s..e], needle);
    }
  }

  method AddUp(counts: array<nat>) returns (total: nat)
    ensures total == Sum(counts[..])
  {
    total := 0;
    for ci := 0 to counts.Length
      invariant total == Sum(counts[..ci])
    {
      assert counts[..ci + 1][..ci] == counts[..ci];
      total := total + counts[ci];
    }
    assert counts[..counts.Length] == counts[..];
  }

  /** The leaves, one after another: together they leave every slot with its chunk's count. */
  method CountSlabs(hay: seq<Byte>, needle: seq<Byte>, chunk: nat, overlap: nat, counts: array<nat>, slabs: seq<Slab>)
    requires needle != [] && IsSplit(slabs, counts.Length)
    requires forall ci: nat | ci < counts.Length :: PartStart(chunk, ci) <= |hay|
    modifies counts
    ensures counts[..] == ChunkCounts(hay, needle, chunk, overlap, counts.Length)
  {
    for k := 0 to |slabs|
      invariant forall ci: nat, j: nat | ci < counts.Length && j < k && InSlab(slabs, j, ci) ::
                  counts[ci] == ChunkCount(hay, needle, chunk, overlap, ci)
    {
      CountSlab(hay, needle, chunk, overlap, counts, slabs[k]);
    }
    forall ci: nat | ci < counts.Length
      ensures counts[ci] == ChunkCount(hay, needle, chunk, overlap, ci)
    {
      assert Taken(slabs, ci);
    }
  }

  /**
   `grep_one_iter`. An overlap of at least the needle's length less one counts every match, and
   twice the ones that start within the surplus of an interior boundary.
   */
  method GrepOneIter(hay: seq<Byte>, needle: seq<Byte>, chunk: nat, overlap: nat, slabs: seq<Slab>) returns (total: nat)
    requires needle != [] && chunk > 0 && IsSplit(slabs, ChunksOf(|hay|, chunk))
    ensures total == SumOfChunks(hay, needle, chunk, overlap, ChunksOf(|hay|, chunk))
    ensures overlap + 1 >= |needle| ==>
              total == Matches(hay, needle, 0, |hay|) +
                       CountedTwice(hay, needle, chunk, overlap + 1 - |needle|, ChunksOf(|hay|, chunk))
  {
    var n := ChunksOf(|hay|, chunk);
    forall ci: nat | ci < n
      ensures PartStart(chunk, ci) <= |hay|
    {
      EveryStartInside(|hay|, chunk, ci);
    }
    var counts := new nat[n](_ => 0);
    CountSlabs(hay, needle, chunk, overlap, counts, slabs);
    total := AddUp(counts);
    if overlap + 1 >= |needle| {
      SumIsWholePlusTwice(hay, needle, chunk, overlap + 1 - |needle|, n);
    }
  }

  /**
   The overlap the program uses, the needle's own length, is one too many: the sum exceeds the
   whole-scan count by the matches starting exactly at an interior boundary, and equals it exactly
   when there are none.
   */
  lemma OverlapOfNeedleLength(hay: seq<Byte>, needle: seq<Byte>, chunk: nat, n: nat)
    requires needle != [] && chunk > 0 && n == ChunksOf(|hay|, chunk)
    ensures SumOfChunks(hay, needle, chunk, |needle|, n)
         == Matches(hay, needle, 0, |hay|) + BoundaryMatches(hay, needle, chunk, n)
    ensures SumOfChunks(hay, needle, chunk, |needle|, n) == Matches(hay, needle, 0, |hay|) <==>
            forall k: nat | 1 <= k < n :: !MatchAt(hay, needle, chunk, k)
  {
    SumIsWholePlusTwice(hay, needle, chunk, 1, n);
    TwiceAtBoundaries(hay, needle, chunk, n);
    NoBoundaryIff(hay, needle, chunk, n);
    assert !MatchAt(hay, needle, chunk, n);
  }

  /** One byte less of overlap and the sum is the whole-scan count, whatever the text. */
  lemma OverlapOneShorter(hay: seq<Byte>, needle: seq<Byte>, chunk: nat, n: nat)
    requires needle != [] && chunk > 0 && n == ChunksOf(|hay|, chunk)
    ensures SumOfChunks(hay, needle, chunk, |needle| - 1, n) == Matches(hay, needle, 0, |hay|)
  {
    SumIsWholePlusTwice(hay, needle, chunk, 0, n);
    NothingTwice(hay, needle, chunk, n);
  }

  // ----- the program's own constants -------------------------------------------------------

  /** "flynnel" */
  const NEEDLE: seq<Byte> := [0x66, 0x6c, 0x79, 0x6e, 0x6e, 0x65, 0x6c]
  const CHUNK: nat := 0x10_0000

  /** What `grep_one_iter` sums up to. */
  function Grepped(hay: seq<Byte>): nat {
    SumOfChunks(hay, NEEDLE, CHUNK, |NEEDLE|, ChunksOf(|hay|, CHUNK))
  }

  function Occurrences(hay: seq<Byte>): nat {
    Matches(hay, NEEDLE, 0, |hay|)
  }

  /** Text too short for a needle at the first boundary is counted right. */
  lemma ShortTextIsCountedRight(hay: seq<Byte>)
    requires |hay| < CHUNK + |NEEDLE|
    ensures Grepped(hay) == Occurrences(hay)
  {
    var n := ChunksOf(|hay|, CHUNK);
    OverlapOfNeedleLength(hay, NEEDLE, CHUNK, n);
    forall k: nat | 1 <= k < n
      ensures !MatchAt(hay, NEEDLE, CHUNK, k)
    {
      BoundaryReach(k);
    }
  }

  lemma BoundaryReach(k: nat)
    requires k >= 1
    ensures PartStart(CHUNK, k) >= CHUNK && PartStart(CHUNK, 1) == CHUNK
  {
    PartStartIsProduct(CHUNK, k);
    PartStartIsProduct(CHUNK, 1);
  }

  /** A needle at the first boundary, and no second boundary: one too many. */
  lemma NeedleAtBoundaryCountsTwice(hay: seq<Byte>)
    requires |hay| <= 2 * CHUNK && IsMatch(hay, NEEDLE, CHUNK)
    ensures Grepped(hay) == Occurrences(hay) + 1
  {
    var n := ChunksOf(|hay|, CHUNK);
    OverlapOfNeedleLength(hay, NEEDLE, CHUNK, n);
    BoundaryReach(1);
    PartStartIsProduct(CHUNK, 2);
    assert n == 2 by {
      TwoChunks(|hay|);
    }
    assert BoundaryMatches(hay, NEEDLE, CHUNK, 1) == 1;
    assert !MatchAt(hay, NEEDLE, CHUNK, 2);
  }

  lemma TwoChunks(length: nat)
    requires CHUNK < length <= 2 * CHUNK
    ensures ChunksOf(length, CHUNK) == 2
  {
    var n := ChunksOf(length, CHUNK);
    PartStartIsProduct(CHUNK, n);
    assert CHUNK < n * CHUNK < 3 * CHUNK;
  }

  lemma {:induction false} NothingBelow(hay: seq<Byte>, hi: nat)
    requires hi <= |hay| && forall p: nat | p < hi :: hay[p] != NEEDLE[0]
    ensures Matches(hay, NEEDLE, 0, hi) == 0
  {
    if hi > 0 {
      NothingBelow(hay, hi - 1);
      if hi - 1 + |NEEDLE| <= |hay| {
        SliceIsMatch(hay, NEEDLE, hi - 1);
      }
    }
  }

  /** The shortest text the program miscounts: a chunk of zeros and one needle, which it counts twice. */
  lemma BoundaryMatchCountsTwice()
    ensures var hay := seq(CHUNK, _ => 0 as Byte) + NEEDLE;
            |hay| == CHUNK + |NEEDLE| && Occurrences(hay) == 1 && Grepped(hay) == 2
  {
    var hay := seq(CHUNK, _ => 0 as Byte) + NEEDLE;
    assert IsMatch(hay, NEEDLE, CHUNK);
    NothingBelow(hay, CHUNK);
    TooFar(hay, NEEDLE, CHUNK + 1, |hay|);
    CountSplit(Starts(hay, NEEDLE), 0, CHUNK, |hay|);
    CountSplit(Starts(hay, NEEDLE), CHUNK, CHUNK + 1, |hay|);
    assert Matches(hay, NEEDLE, CHUNK, CHUNK + 1) == 1;
    NeedleAtBoundaryCountsTwice(hay);
  }
}
