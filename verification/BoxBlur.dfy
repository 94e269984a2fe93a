/**
 The 3x3 box blur of examples/gpu_wide_op_demo.rs over the reals: `cpu_blur`'s nested loops, and the
 grid-stride kernel run by any number of threads in any interleaving with its 32-bit pixel index.
 */
module BoxBlur {
  import opened Layout

  // ----- the mean of a clipped window ------------------------------------------------------

  predicate IsImage(src: seq<real>, w: nat, h: nat) {
    |src| == PartStart(w, h)
  }

  function At(src: seq<real>, w: nat, h: nat, x: nat, y: nat): real
    requires IsImage(src, w, h) && x < w && y < h
  {
    PartsBefore(w, y, h);
    src[PartStart(w, y) + x]
  }

  /** The window around i reaches from here ... */
  function First(i: nat): nat {
    if i == 0 then 0 else i - 1
  }

  /** ... to just before here. */
  function Past(i: nat, n: nat): nat {
    Min(i + 2, n)
  }

  function RowSum(src: seq<real>, w: nat, h: nat, y: nat, lo: nat, hi: nat): real
    requires IsImage(src, w, h) && y < h && hi <= w
  {
    if hi <= lo then 0.0 else RowSum(src, w, h, y, lo, hi - 1) + At(src, w, h, hi - 1, y)
  }

  /** Over the columns of the window around x, the rows from loY up to hiY. */
  function WindowSum(src: seq<real>, w: nat, h: nat, x: nat, loY: nat, hiY: nat): real
    requires IsImage(src, w, h) && x < w && hiY <= h
  {
    if hiY <= loY then 0.0
    else WindowSum(src, w, h, x, loY, hiY - 1) + RowSum(src, w, h, hiY - 1, First(x), Past(x, w))
  }

  /** How many pixels the window around (x, y) holds. It holds (x, y) itself, so never none. */
  function WindowArea(w: nat, h: nat, x: nat, y: nat): (area: nat)
    requires x < w && y < h
    ensures area >= 1
  {
    PartsBefore(Past(x, w) - First(x), 0, Past(y, h) - First(y));
    PartStart(Past(x, w) - First(x), Past(y, h) - First(y))
  }

  lemma AreaIsProduct(w: nat, h: nat, x: nat, y: nat)
    requires x < w && y < h
    ensures WindowArea(w, h, x, y) == (Past(x, w) - First(x)) * (Past(y, h) - First(y))
  {
    PartStartIsProduct(Past(x, w) - First(x), Past(y, h) - First(y));
  }

  /** The mean of the pixels within one step of (x, y) in each direction, those there are. */
  function WindowMean(src: seq<real>, w: nat, h: nat, x: nat, y: nat): real
    requires IsImage(src, w, h) && x < w && y < h
  {
    WindowSum(src, w, h, x, First(y), Past(y, h)) / WindowArea(w, h, x, y) as real
  }

  /** The part of the window's sum and area in the rows before `row`, ... */
  function SumAbove(src: seq<real>, w: nat, h: nat, x: nat, y: nat, row: int): real
    requires IsImage(src, w, h) && x < w && y < h
  {
    WindowSum(src, w, h, x, First(y), Clamp(row, First(y), Past(y, h)))
  }

  function AreaAbove(w: nat, h: nat, x: nat, y: nat, row: int): nat
    requires x < w && y < h
  {
    PartStart(Past(x, w) - First(x), Clamp(row, First(y), Past(y, h)) - First(y))
  }

  /** ... and what one more row of the window adds to them, if there is such a row in the image. */
  lemma RowOfWindow(src: seq<real>, w: nat, h: nat, x: nat, y: nat, row: int)
    requires IsImage(src, w, h) && x < w && y < h && y - 1 <= row <= y + 1
    ensures 0 <= row < h ==>
              && SumAbove(src, w, h, x, y, row + 1)
              == SumAbove(src, w, h, x, y, row) + RowSum(src, w, h, row, First(x), Past(x, w))
              && AreaAbove(w, h, x, y, row + 1) == AreaAbove(w, h, x, y, row) + Past(x, w) - First(x)
    ensures !(0 <= row < h) ==>
              && SumAbove(src, w, h, x, y, row + 1) == SumAbove(src, w, h, x, y, row)
              && AreaAbove(w, h, x, y, row + 1) == AreaAbove(w, h, x, y, row)
  {
  }

  /** The inner loop: along row `row` of the window, if the image has one. */
  method AlongRow(src: seq<real>, w: nat, h: nat, x: nat, row: int, sumAbove: real, cntAbove: nat)
    returns (sum: real, cnt: nat)
    requires IsImage(src, w, h) && x < w
    ensures 0 <= row < h ==>
              sum == sumAbove + RowSum(src, w, h, row, First(x), Past(x, w)) && cnt == cntAbove + Past(x, w) - First(x)
    ensures !(0 <= row < h) ==> sum == sumAbove && cnt == cntAbove
  {
    sum, cnt := sumAbove, cntAbove;
    ghost var inside, x0, x1 := 0 <= row < h, First(x), Past(x, w);
    for dx := -1 to 2
      invariant inside ==> sum == sumAbove + RowSum(src, w, h, row, x0, Clamp(x + dx, x0, x1))
      invariant inside ==> cnt == cntAbove + Clamp(x + dx, x0, x1) - x0
      invariant !inside ==> sum == sumAbove && cnt == cntAbove
    {
      var nx := x + dx;
      if nx >= 0 && nx < w && row >= 0 && row < h {
        PartsBefore(w, row, h);
        sum := sum + src[PartStart(w, row) + nx];
        cnt := cnt + 1;
      }
    }
  }

  /** The loops over dy and dx that `cpu_blur` and the kernel share. */
  method BlurPixel(src: seq<real>, w: nat, h: nat, x: nat, y: nat) returns (mean: real)
    requires IsImage(src, w, h) && x < w && y < h
    ensures mean == WindowMean(src, w, h, x, y)
  {
    var sum, cnt := 0.0, 0;
    for dy := -1 to 2
      invariant sum == SumAbove(src, w, h, x, y, y + dy) && cnt == AreaAbove(w, h, x, y, y + dy)
    {
      RowOfWindow(src, w, h, x, y, y + dy);
      sum, cnt := AlongRow(src, w, h, x, y + dy, sum, cnt);
    }
    mean := sum / cnt as real;
  }

  // ----- the blurred image -----------------------------------------------------------------

  ghost predicate IsBlurOf(out: seq<real>, src: seq<real>, w: nat, h: nat)
    requires IsImage(src, w, h)
  {
    && IsImage(out, w, h)
    && forall x: nat, y: nat | x < w && y < h :: At(out, w, h, x, y) == WindowMean(src, w, h, x, y)
  }

  lemma DividesInto(p: nat, d: nat)
    requires d > 0
    ensures p == PartStart(d, p / d) + p % d && p % d < d && p % d <= p
  {
    PartStartIsProduct(d, p / d);
  }

  /** Where the pixel that is number p sits: x is p % w, y is p / w. */
  lemma PixelSits(w: nat, h: nat, p: nat)
    requires p < PartStart(w, h)
    ensures w > 0 && p % w < w && p / w < h && p == PartStart(w, p / w) + p % w
  {
    if w == 0 {
      PartStartIsProduct(w, h);
      assert false;
    } else {
      DividesInto(p, w);
      if h < p / w {
        PartsBefore(w, h, p / w);
      }
    }
  }

  lemma PixelNumber(w: nat, x: nat, y: nat)
    requires x < w
    ensures (PartStart(w, y) + x) % w == x && (PartStart(w, y) + x) / w == y
  {
    var p := PartStart(w, y) + x;
    PartsBefore(w, y, y + 1);
    PixelSits(w, y + 1, p);
    if p / w < y {
      PartsBefore(w, p / w, y);
    }
  }

  /** What pixel number p becomes. */
  function PixelMean(src: seq<real>, w: nat, h: nat, p: nat): real
    requires IsImage(src, w, h) && p < |src|
  {
    PixelSits(w, h, p);
    WindowMean(src, w, h, p % w, p / w)
  }

  /** What every pixel becomes, in the order they are stored in. */
  function Means(src: seq<real>, w: nat, h: nat): (means: seq<real>)
    requires IsImage(src, w, h)
    ensures |means| == |src|
  {
    seq(|src|, p requires 0 <= p < |src| => PixelMean(src, w, h, p))
  }

  lemma PixelByPixel(out: seq<real>, src: seq<real>, w: nat, h: nat)
    requires IsImage(src, w, h) && |out| == |src|
    requires forall p: nat | p < |src| :: out[p] == PixelMean(src, w, h, p)
    ensures IsBlurOf(out, src, w, h)
  {
    forall x: nat, y: nat | x < w && y < h
      ensures At(out, w, h, x, y) == WindowMean(src, w, h, x, y)
    {
      PartsBefore(w, y, h);
      PixelNumber(w, x, y);
      assert out[PartStart(w, y) + x] == PixelMean(src, w, h, PartStart(w, y) + x);
    }
  }

  /** There is one blurred image. */
  lemma BlurIsUnique(a: seq<real>, b: seq<real>, src: seq<real>, w: nat, h: nat)
    requires IsImage(src, w, h) && IsBlurOf(a, src, w, h) && IsBlurOf(b, src, w, h)
    ensures a == b
  {
    forall p: nat | p < |a|
      ensures a[p] == b[p]
    {
      PixelSits(w, h, p);
      assert At(a, w, h, p % w, p / w) == At(b, w, h, p % w, p / w);
    }
  }

  /** The first k pixels are blurred. */
  ghost predicate BlurredUpTo(out: seq<real>, src: seq<real>, w: nat, h: nat, k: nat)
    requires IsImage(src, w, h)
  {
    k <= |src| == |out| && forall p: nat | p < k :: out[p] == PixelMean(src, w, h, p)
  }

  lemma OneMorePixel(out: seq<real>, src: seq<real>, w: nat, h: nat, x: nat, y: nat)
    requires IsImage(src, w, h) && x < w && y < h && BlurredUpTo(out, src, w, h, PartStart(w, y) + x)
    ensures PartStart(w, y) + x < |src|
    ensures BlurredUpTo(out[PartStart(w, y) + x := WindowMean(src, w, h, x, y)], src, w, h, PartStart(w, y) + x + 1)
  {
    PartsBefore(w, y, h);
    PixelNumber(w, x, y);
  }

  method CpuBlur(src: seq<real>, w: nat, h: nat) returns (out: array<real>)
    requires IsImage(src, w, h)
    ensures fresh(out) && IsBlurOf(out[..], src, w, h)
  {
    PartStartIsProduct(w, h);
    out := new real[w * h](_ => 0.0);
    for y := 0 to h
      invariant BlurredUpTo(out[..], src, w, h, PartStart(w, y))
    {
      for x := 0 to w
        invariant BlurredUpTo(out[..], src, w, h, PartStart(w, y) + x)
      {
        var mean := BlurPixel(src, w, h, x, y);
        OneMorePixel(out[..], src, w, h, x, y);
        out[PartStart(w, y) + x] := mean;
      }
    }
    PixelByPixel(out[..], src, w, h);
  }

  // ----- the grid-stride kernel ------------------------------------------------------------

  /** The pixel index is a 32-bit unsigned. */
  const WORD: nat := 0x1_0000_0000

  /** A resident block holds four bytes a pixel and has a 32-bit size. */
  predicate Resident(n: nat) {
    4 * n < WORD
  }

  /** What a 32-bit unsigned keeps of a number. */
  function Wrapped(i: nat): (r: nat)
    ensures r < WORD
    ensures i < WORD ==> r == i
    ensures WORD <= i < 2 * WORD ==> r == i - WORD
  {
    i % 0x1_0000_0000
  }

  /** The body of the kernel's loop for one pixel. */
  method KernelBody(src: seq<real>, dst: array<real>, w: nat, h: nat, idx: nat)
    requires IsImage(src, w, h) && dst.Length == |src| && idx < |src|
    modifies dst
    ensures dst[..] == old(dst[..])[idx := Means(src, w, h)[idx]]
  {
    PixelSits(w, h, idx);
    var mean := BlurPixel(src, w, h, idx % w, idx / w);
    dst[idx] := mean;
  }

  /** `index[t]` is thread t's `idx`; `writes` lists the pixels stored to, in order. */
  datatype State = State(index: seq<nat>, dst: seq<real>, writes: seq<nat>)

  function Launched(threads: nat, dst: seq<real>): State {
    State(seq(threads, t requires 0 <= t => Wrapped(t)), dst, [])
  }

  /** Thread t goes once round its loop, for pixel idx; `means` is what the loop body computes. */
  function Step(s: State, means: seq<real>, t: nat): (s': State)
    requires |s.dst| == |means|
    ensures |s'.dst| == |s.dst| && |s'.index| == |s.index|
  {
    if t < |s.index| && s.index[t] < |means| then
      var idx := s.index[t];
      State(s.index[t := Wrapped(idx + |s.index|)], s.dst[idx := means[idx]], s.writes + [idx])
    else s
  }

  function Run(means: seq<real>, threads: nat, dst: seq<real>, schedule: seq<nat>): (s: State)
    requires |dst| == |means|
    ensures |s.dst| == |means| && |s.index| == threads
  {
    if schedule == [] then Launched(threads, dst)
    else Step(Run(means, threads, dst, schedule[..|schedule| - 1]), means, schedule[|schedule| - 1])
  }

  ghost predicate Finished(s: State) {
    forall t: nat | t < |s.index| :: s.index[t] >= |s.dst|
  }

  function Times(writes: seq<nat>, p: nat): nat {
    multiset(writes)[p]
  }

  lemma OnlyWritten(writes: seq<nat>, n: nat)
    requires forall p: nat | p in writes :: p < n
    ensures forall p: nat | p >= n :: Times(writes, p) == 0
  {
    forall p: nat | p >= n
      ensures Times(writes, p) == 0
    {
      assert p in writes <==> p in multiset(writes);
    }
  }

  /** No thread's index passes 2^32. */
  predicate NoWrap(n: nat, threads: nat) {
    n == 0 || n - 1 + threads < WORD
  }

  // A pixel belongs to the thread its number leaves over when divided by the thread count.

  lemma Wraps(a: nat, d: nat)
    requires d > 0
    ensures (a + d) % d == a % d
  {
    assert a + d == a / d * d + a % d + d == (a / d + 1) * d + a % d;
    SameResidue(a + d, a / d + 1, a % d, d);
  }

  lemma SameResidue(a: nat, q: nat, r: nat, d: nat)
    requires d > 0 && r < d && a == q * d + r
    ensures a % d == r
  {
    PartStartIsProduct(d, q);
    PixelNumber(d, r, q);
  }

  /** Two pixels of one thread are at least a stride apart. */
  lemma StrideApart(p: nat, q: nat, d: nat)
    requires d > 0 && p < q && p % d == q % d
    ensures p + d <= q
  {
    DividesInto(p, d);
    DividesInto(q, d);
    if p / d < q / d {
      PartsBefore(d, p / d, q / d);
    } else if q / d < p / d {
      PartsBefore(d, q / d, p / d);
      assert false;
    }
  }

  ghost predicate Done(s: State, means: seq<real>, p: nat)
    requires |s.dst| == |means| && p < |means| && |s.index| > 0
  {
    if p < s.index[p % |s.index|] then Times(s.writes, p) == 1 && s.dst[p] == means[p]
    else Times(s.writes, p) == 0
  }

  ghost predicate Inv(s: State, means: seq<real>)
    requires |s.dst| == |means| && |s.index| > 0
  {
    && (forall t: nat | t < |s.index| :: s.index[t] % |s.index| == t)
    && (forall p: nat | p < |means| :: Done(s, means, p))
    && (forall p: nat | p in s.writes :: p < |means|)
  }

  lemma StepInv(s: State, means: seq<real>, t: nat)
    requires |s.dst| == |means| && |s.index| > 0
    requires NoWrap(|means|, |s.index|) && Inv(s, means)
    ensures Inv(Step(s, means, t), means)
  {
    if t < |s.index| && s.index[t] < |means| {
      var s', idx, d := Step(s, means, t), s.index[t], |s.index|;
      assert s'.index[t] == idx + d;
      Wraps(idx, d);
      forall p: nat | p < |means|
        ensures Done(s', means, p)
      {
        assert Done(s, means, p);
        assert p % d < d;
        if p % d == t {
          if p < idx {
          } else if p > idx {
            StrideApart(idx, p, d);
          }
        }
      }
    }
  }

  lemma LaunchedInv(means: seq<real>, threads: nat, dst: seq<real>)
    requires |dst| == |means| > 0 && threads > 0 && NoWrap(|means|, threads)
    ensures Inv(Launched(threads, dst), means)
  {
    var s := Launched(threads, dst);
    forall t: nat | t < threads
      ensures s.index[t] == t && t % threads == t
    {
      PixelNumber(threads, t, 0);
    }
    forall p: nat | p < |means|
      ensures Done(s, means, p)
    {
      DividesInto(p, threads);
    }
  }

  lemma {:induction false} RunInv(means: seq<real>, threads: nat, dst: seq<real>, schedule: seq<nat>)
    requires |dst| == |means| > 0 && threads > 0 && NoWrap(|means|, threads)
    ensures Inv(Run(means, threads, dst, schedule), means)
  {
    if schedule == [] {
      LaunchedInv(means, threads, dst);
    } else {
      RunInv(means, threads, dst, schedule[..|schedule| - 1]);
      StepInv(Run(means, threads, dst, schedule[..|schedule| - 1]), means, schedule[|schedule| - 1]);
    }
  }

  /** Once every thread has left its loop, each pixel has been written once and none outside the image. */
  lemma EveryPixelOnce(means: seq<real>, threads: nat, dst: seq<real>, schedule: seq<nat>)
    requires |dst| == |means| && threads > 0 && NoWrap(|means|, threads)
    requires Finished(Run(means, threads, dst, schedule))
    ensures var s := Run(means, threads, dst, schedule);
            s.dst == means && forall p: nat :: Times(s.writes, p) == if p < |means| then 1 else 0
  {
    var s := Run(means, threads, dst, schedule);
    if |means| == 0 {
      EmptyImage(means, threads, dst, schedule);
    } else {
      RunInv(means, threads, dst, schedule);
      forall p: nat | p < |means|
        ensures Times(s.writes, p) == 1 && s.dst[p] == means[p]
      {
        DividesInto(p, threads);
        assert s.index[p % threads] >= |means|;
        assert Done(s, means, p);
      }
      OnlyWritten(s.writes, |means|);
    }
  }

  /** After so many turns a thread has gone that many strides, or past the image. */
  lemma {:induction false} StridesTaken(means: seq<real>, threads: nat, dst: seq<real>, schedule: seq<nat>, t: nat)
    requires |dst| == |means| && NoWrap(|means|, threads) && t < threads
    ensures var index := Run(means, threads, dst, schedule).index[t];
            index >= |means| || index == t + PartStart(threads, Times(schedule, t))
  {
    if schedule != [] {
      var before, last := schedule[..|schedule| - 1], schedule[|schedule| - 1];
      assert schedule == before + [last];
      StridesTaken(means, threads, dst, before, t);
      assert Times(schedule, t) == Times(before, t) + if last == t then 1 else 0;
    }
  }

  /** A thread needs no more turns than the pixels divided among the threads, rounded up. */
  lemma FairScheduleFinishes(means: seq<real>, threads: nat, dst: seq<real>, schedule: seq<nat>)
    requires |dst| == |means| && threads > 0 && NoWrap(|means|, threads)
    requires forall t: nat | t < threads :: Times(schedule, t) >= DivCeil(|means|, threads)
    ensures Finished(Run(means, threads, dst, schedule))
  {
    var enough := DivCeil(|means|, threads);
    PartStartIsProduct(threads, enough);
    forall t: nat | t < threads
      ensures Run(means, threads, dst, schedule).index[t] >= |means|
    {
      StridesTaken(means, threads, dst, schedule, t);
      if Times(schedule, t) > enough {
        PartsBefore(threads, enough, Times(schedule, t));
      }
    }
  }

  /** So every fair launch leaves the image `cpu_blur` makes. */
  lemma FairKernelIsCpuBlur(src: seq<real>, w: nat, h: nat, threads: nat, dst: seq<real>, schedule: seq<nat>, out: seq<real>)
    requires IsImage(src, w, h) && |dst| == |src| && threads > 0 && NoWrap(|src|, threads)
    requires forall t: nat | t < threads :: Times(schedule, t) >= DivCeil(|src|, threads)
    requires IsBlurOf(out, src, w, h)
    ensures Run(Means(src, w, h), threads, dst, schedule).dst == out
  {
    FairScheduleFinishes(Means(src, w, h), threads, dst, schedule);
    KernelIsCpuBlur(src, w, h, threads, dst, schedule, out);
  }

  /**
   Any number of threads, interleaved anyhow, that have all left their loops leave exactly the
   image `cpu_blur` makes, whatever was in the block before.
   */
  lemma KernelIsCpuBlur(src: seq<real>, w: nat, h: nat, threads: nat, dst: seq<real>, schedule: seq<nat>, out: seq<real>)
    requires IsImage(src, w, h) && |dst| == |src| && threads > 0 && NoWrap(|src|, threads)
    requires Finished(Run(Means(src, w, h), threads, dst, schedule))
    requires IsBlurOf(out, src, w, h)
    ensures Run(Means(src, w, h), threads, dst, schedule).dst == out
  {
    EveryPixelOnce(Means(src, w, h), threads, dst, schedule);
    PixelByPixel(Means(src, w, h), src, w, h);
    BlurIsUnique(Means(src, w, h), out, src, w, h);
  }

  lemma {:induction false} EmptyImage(means: seq<real>, threads: nat, dst: seq<real>, schedule: seq<nat>)
    requires |dst| == |means| == 0
    ensures Run(means, threads, dst, schedule).writes == []
  {
    if schedule != [] {
      EmptyImage(means, threads, dst, schedule[..|schedule| - 1]);
    }
  }

  ghost predicate NeverTwice(means: seq<real>, threads: nat, dst: seq<real>)
    requires |dst| == |means|
  {
    forall schedule: seq<nat>, p: nat :: Times(Run(means, threads, dst, schedule).writes, p) <= 1
  }

  lemma RunOfThree(means: seq<real>, threads: nat, dst: seq<real>, a: nat, b: nat, c: nat)
    requires |dst| == |means|
    ensures Run(means, threads, dst, [a, b, c])
         == Step(Step(Step(Launched(threads, dst), means, a), means, b), means, c)
  {
    assert [a, b, c][..2] == [a, b] && [a, b][..1] == [a] && [a][..0] == [];
    assert Run(means, threads, dst, [a]) == Step(Launched(threads, dst), means, a);
    assert Run(means, threads, dst, [a, b]) == Step(Run(means, threads, dst, [a]), means, b);
  }

  lemma TwiceStays(writes: seq<nat>, p: nat)
    requires |writes| >= 2 && writes[..2] == [p, p]
    ensures Times(writes, p) >= 2
  {
    assert writes == [p, p] + writes[2..];
  }

  lemma OneTurn(s: State, means: seq<real>, t: nat)
    requires |s.dst| == |means| && t < |s.index| && s.index[t] < |means|
    ensures Step(s, means, t).index == s.index[t := Wrapped(s.index[t] + |s.index|)]
    ensures Step(s, means, t).writes == s.writes + [s.index[t]]
  {
  }

  /** Thread `last` wraps to pixel p and stores to it, and so does thread p. */
  lemma StoresTwice(s: State, means: seq<real>, last: nat, p: nat)
    requires |s.dst| == |means| && s.writes == [] && p < last < |means| && last < |s.index|
    requires s.index[last] == last && s.index[p] == p && Wrapped(last + |s.index|) == p
    ensures Step(Step(Step(s, means, last), means, last), means, p).writes == [last, p, p]
  {
    OneTurn(s, means, last);
    OneTurn(Step(s, means, last), means, last);
    OneTurn(Step(Step(s, means, last), means, last), means, p);
  }

  lemma TimesInThree(a: nat, p: nat)
    ensures Times([a, p, p], p) > 1
  {
    assert [a, p, p][..2] == [a, p];
  }

  lemma WrapsToAnother(means: seq<real>, threads: nat, dst: seq<real>) returns (schedule: seq<nat>, p: nat)
    requires |dst| == |means| && Resident(|means|) && !NoWrap(|means|, threads) && threads < WORD
    ensures Times(Run(means, threads, dst, schedule).writes, p) > 1
  {
    var last := |means| - 1;
    p := last + threads - WORD;
    schedule := [last, last, p];
    RunOfThree(means, threads, dst, last, last, p);
    StoresTwice(Launched(threads, dst), means, last, p);
    TimesInThree(last, p);
  }

  /** An index that passes 2^32 comes back to a pixel that is some other thread's, or its own again. */
  lemma WrapWritesTwice(means: seq<real>, threads: nat, dst: seq<real>) returns (schedule: seq<nat>, p: nat)
    requires |dst| == |means| && Resident(|means|) && !NoWrap(|means|, threads)
    ensures Times(Run(means, threads, dst, schedule).writes, p) > 1
  {
    if threads < WORD {
      schedule, p := WrapsToAnother(means, threads, dst);
    } else {
      var other := if threads == WORD then 0 else WORD;
      schedule, p := [0, other, other], 0;
      var s0 := Launched(threads, dst);
      assert s0.index[0] == 0 && s0.index[other] == 0;
      var s1 := Step(s0, means, 0);
      assert s1.writes == [0] && s1.index[other] == 0;
      var s2 := Step(s1, means, other);
      assert s2.writes == [0, 0];
      RunOfThree(means, threads, dst, 0, other, other);
      assert Step(s2, means, other).writes[..2] == [0, 0];
      TwiceStays(Step(s2, means, other).writes, 0);
    }
  }

  /** For every image, thread count and interleaving: no pixel is written twice exactly if no index wraps. */
  lemma NeverTwiceIff(means: seq<real>, threads: nat, dst: seq<real>)
    requires |dst| == |means| && Resident(|means|) && threads > 0
    ensures NeverTwice(means, threads, dst) <==> NoWrap(|means|, threads)
  {
    if NoWrap(|means|, threads) {
      forall schedule: seq<nat>, p: nat
        ensures Times(Run(means, threads, dst, schedule).writes, p) <= 1
      {
        if |means| == 0 {
          EmptyImage(means, threads, dst, schedule);
        } else {
          RunInv(means, threads, dst, schedule);
          OnlyWritten(Run(means, threads, dst, schedule).writes, |means|);
          if p < |means| {
            assert Done(Run(means, threads, dst, schedule), means, p);
          }
        }
      }
    } else {
      var schedule, p := WrapWritesTwice(means, threads, dst);
    }
  }

  // ----- the grid --------------------------------------------------------------------------

  const BLOCK: nat := 256

  function FullGrid(n: nat): nat {
    DivCeil(n, BLOCK)
  }

  lemma FullGridNeverWraps(n: nat)
    requires Resident(n)
    ensures n <= FullGrid(n) * BLOCK < n + BLOCK && NoWrap(n, FullGrid(n) * BLOCK)
  {
  }

  /** Thread t has not been round its loop, or has been round once and is past the image. */
  ghost predicate OnceRound(s: State) {
    forall t: nat | t < |s.index| :: s.index[t] == t || (s.index[t] == t + |s.index| && s.index[t] >= |s.dst|)
  }

  lemma StepOnceRound(s: State, means: seq<real>, t: nat)
    requires |s.dst| == |means| <= |s.index| && NoWrap(|means|, |s.index|) && OnceRound(s)
    ensures OnceRound(Step(s, means, t))
  {
  }

  /** With a thread for every pixel, thread t stores to pixel t and to no other, and only once. */
  lemma {:induction false} OnePixelEach(means: seq<real>, threads: nat, dst: seq<real>, schedule: seq<nat>)
    requires |dst| == |means| <= threads < WORD && NoWrap(|means|, threads)
    ensures OnceRound(Run(means, threads, dst, schedule))
  {
    if schedule != [] {
      OnePixelEach(means, threads, dst, schedule[..|schedule| - 1]);
      StepOnceRound(Run(means, threads, dst, schedule[..|schedule| - 1]), means, schedule[|schedule| - 1]);
    }
  }
}
