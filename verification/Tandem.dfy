/**
 The tandem rounds of examples/gpu_peer_tandem_demo.rs: a buffer of blocks split between a pool and a
 device, the device's half going through a window of submissions, and the share of the split.
 */
module Tandem {
  import opened Layout
  import opened Options
  import opened Powers
  import opened Reals

  // ----- the device ------------------------------------------------------------------------

  datatype Slot = Slot(ticket: nat, payload: seq<real>)

  function PlusOne(s: seq<real>): (r: seq<real>)
    ensures |r| == |s|
  {
    seq(|s|, k requires 0 <= k < |s| => s[k] + 1.0)
  }

  /**
   What the round asks of `GpuPeer`: a submission takes a slot while there is one, its result is its
   payload plus one, and reaping gives the slot back. Submissions complete in the order they came in.
   */
  class Peer {
    const capacity: nat
    var tickets: nat
    var inFlight: seq<Slot>
    /** The tickets reaped so far, in order. */
    var reaped: seq<nat>

    constructor (capacity: nat)
      ensures this.capacity == capacity && tickets == 0 && inFlight == [] && reaped == []
    {
      this.capacity := capacity;
      tickets, inFlight, reaped := 0, [], [];
    }

    method Submit(payload: seq<real>) returns (t: Option<nat>)
      modifies this
      ensures t.Some? <==> |old(inFlight)| < capacity
      ensures t.Some? ==> t.value == old(tickets) && tickets == old(tickets) + 1
      ensures t.Some? ==> inFlight == old(inFlight) + [Slot(t.value, payload)]
      ensures t.None? ==> tickets == old(tickets) && inFlight == old(inFlight)
      ensures reaped == old(reaped)
    {
      if |inFlight| == capacity || |inFlight| > capacity {
        return None;
      }
      inFlight := inFlight + [Slot(tickets, payload)];
      t := Some(tickets);
      tickets := tickets + 1;
    }

    /** Waits for the oldest submission, and gives its result. */
    method ReadResult(t: nat) returns (bytes: seq<real>)
      requires inFlight != [] && inFlight[0].ticket == t
      ensures bytes == PlusOne(inFlight[0].payload)
    {
      bytes := PlusOne(inFlight[0].payload);
    }

    method Reap(t: nat)
      requires inFlight != [] && inFlight[0].ticket == t
      modifies this
      ensures inFlight == old(inFlight)[1..] && tickets == old(tickets)
      ensures reaped == old(reaped) + [t]
    {
      inFlight := inFlight[1..];
      reaped := reaped + [t];
    }
  }

  // ----- one round -------------------------------------------------------------------------

  /** Block b of the buffer. */
  function Block(data: seq<real>, size: nat, blocks: nat, b: nat): seq<real>
    requires |data| == PartStart(size, blocks) && b < blocks
  {
    PartsBefore(size, b, blocks);
    data[PartStart(size, b)..PartStart(size, b) + size]
  }

  /** The elements from lo up to hi are one more than they were, and the rest are what they were. */
  ghost predicate Advanced(data: seq<real>, was: seq<real>, lo: nat, hi: nat) {
    |data| == |was| && forall k: nat | k < |data| :: data[k] == if lo <= k < hi then was[k] + 1.0 else was[k]
  }

  /** A block and the ticket it was submitted under. */
  datatype Submitted = Submitted(block: nat, ticket: nat)

  /**
   The queue holds consecutive blocks in order, the next to be reaped first, each in flight with the
   payload the block had when the round began.
   */
  ghost predicate Queued(pending: seq<Submitted>, inFlight: seq<Slot>, was: seq<real>, size: nat, blocks: nat,
                         first: nat, firstTicket: nat)
    requires |was| == PartStart(size, blocks)
  {
    && |pending| == |inFlight| && first + |pending| <= blocks
    && forall j: nat | j < |pending| ::
         && pending[j] == Submitted(first + j, firstTicket + j)
         && inFlight[j] == Slot(firstTicket + j, Block(was, size, blocks, first + j))
  }

  /** The result of the block that starts at `at`, element by element. */
  lemma ResultOfBlock(was: seq<real>, size: nat, blocks: nat, b: nat, bytes: seq<real>)
    requires |was| == PartStart(size, blocks) && b < blocks && bytes == PlusOne(Block(was, size, blocks, b))
    ensures |bytes| == size && PartStart(size, b) + size <= |was|
    ensures forall i: nat | i < size :: bytes[i] == was[PartStart(size, b) + i] + 1.0
  {
    PartsBefore(size, b, blocks);
  }

  /** The result goes where the block was. */
  method CopyBack(data: array<real>, at: nat, bytes: seq<real>, ghost was: seq<real>, ghost lo: nat)
    requires lo <= at && at + |bytes| <= data.Length && Advanced(data[..], was, lo, at)
    requires forall i: nat | i < |bytes| :: bytes[i] == was[at + i] + 1.0
    modifies data
    ensures Advanced(data[..], was, lo, at + |bytes|)
  {
    for i := 0 to |bytes|
      invariant Advanced(data[..], was, lo, at + i)
    {
      data[at + i] := bytes[i];
    }
  }

  /** The block `first` is reaped. */
  method ReapInto(peer: Peer, pending: seq<Submitted>, data: array<real>, size: nat, blocks: nat, cpuBlocks: nat,
                  ghost was: seq<real>, ghost first: nat, ghost firstTicket: nat)
    returns (rest: seq<Submitted>)
    requires data.Length == |was| == PartStart(size, blocks)
    requires pending != [] && Queued(pending, peer.inFlight, was, size, blocks, first, firstTicket)
    requires cpuBlocks <= first && Advanced(data[..], was, PartStart(size, cpuBlocks), PartStart(size, first))
    modifies peer, data
    ensures |rest| == |pending| - 1 && Queued(rest, peer.inFlight, was, size, blocks, first + 1, firstTicket + 1)
    ensures Advanced(data[..], was, PartStart(size, cpuBlocks), PartStart(size, first + 1))
    ensures peer.tickets == old(peer.tickets) && peer.reaped == old(peer.reaped) + [firstTicket]
  {
    var b, t := pending[0].block, pending[0].ticket;
    rest := pending[1..];
    if cpuBlocks < first {
      PartsBefore(size, cpuBlocks, first);
    }
    var bytes := peer.ReadResult(t);
    ResultOfBlock(was, size, blocks, b, bytes);
    CopyBack(data, PartStart(size, b), bytes, was, PartStart(size, cpuBlocks));
    peer.Reap(t);
  }

  /** The pool's half: each chunk once, each element of it once. */
  method AddToChunks(data: array<real>, end: nat, chunk: nat)
    requires end <= data.Length && chunk > 0
    modifies data
    ensures forall k: nat | k < data.Length :: data[k] == old(data[k]) + if k < end then 1.0 else 0.0
  {
    var lo := 0;
    while lo < end
      invariant lo <= end
      invariant forall k: nat | k < data.Length :: data[k] == old(data[k]) + if k < lo then 1.0 else 0.0
      decreases end - lo
    {
      var hi := Min(lo + chunk, end);
      for x := lo to hi
        invariant forall k: nat | k < data.Length :: data[k] == old(data[k]) + if k < x then 1.0 else 0.0
      {
        data[x] := data[x] + 1.0;
      }
      lo := hi;
    }
  }

  /** The tickets from a up to b, in order. */
  function Tickets(a: nat, b: nat): seq<nat>
    requires a <= b
  {
    if a == b then [] else Tickets(a, b - 1) + [b - 1]
  }

  /** What holds of the device's half between two steps of a round; blocks up to `first` are reaped, up to `next` submitted. */
  ghost predicate MidRound(peer: Peer, pending: seq<Submitted>, data: array<real>, size: nat, blocks: nat, cpuBlocks: nat,
                           was: seq<real>, first: nat, next: nat, ticket: nat, reaped: seq<nat>)
    requires |was| == PartStart(size, blocks)
    reads peer, data
  {
    && data.Length == |was|
    && cpuBlocks <= first <= next == first + |pending| <= blocks
    && Queued(pending, peer.inFlight, was, size, blocks, first, ticket + first - cpuBlocks)
    && Advanced(data[..], was, PartStart(size, cpuBlocks), PartStart(size, first))
    && peer.tickets == ticket + next - cpuBlocks
    && peer.reaped == reaped + Tickets(ticket, ticket + first - cpuBlocks)
  }

  /** Block b goes out as it was when the round began. */
  method SubmitBlock(peer: Peer, pending: seq<Submitted>, data: array<real>, size: nat, blocks: nat, cpuBlocks: nat, b: nat,
                     ghost was: seq<real>, ghost first: nat, ghost ticket: nat, ghost reaped: seq<nat>)
    returns (more: seq<Submitted>)
    requires |was| == PartStart(size, blocks) && b < blocks && |pending| < peer.capacity
    requires MidRound(peer, pending, data, size, blocks, cpuBlocks, was, first, b, ticket, reaped)
    modifies peer
    ensures MidRound(peer, more, data, size, blocks, cpuBlocks, was, first, b + 1, ticket, reaped)
  {
    PartsBefore(size, b, blocks);
    if first < b {
      PartsBefore(size, first, b);
    }
    var payload := data[PartStart(size, b)..PartStart(size, b) + size];
    assert payload == Block(was, size, blocks, b);
    var t := peer.Submit(payload);
    more := pending + [Submitted(b, t.value)];
  }

  /** The oldest block in the queue comes back. */
  method ReapNext(peer: Peer, pending: seq<Submitted>, data: array<real>, size: nat, blocks: nat, cpuBlocks: nat,
                  ghost was: seq<real>, ghost first: nat, ghost next: nat, ghost ticket: nat, ghost reaped: seq<nat>)
    returns (rest: seq<Submitted>)
    requires |was| == PartStart(size, blocks) && pending != []
    requires MidRound(peer, pending, data, size, blocks, cpuBlocks, was, first, next, ticket, reaped)
    modifies peer, data
    ensures |rest| == |pending| - 1
    ensures MidRound(peer, rest, data, size, blocks, cpuBlocks, was, first + 1, next, ticket, reaped)
  {
    rest := ReapInto(peer, pending, data, size, blocks, cpuBlocks, was, first, ticket + first - cpuBlocks);
    assert peer.reaped == reaped + (Tickets(ticket, ticket + first - cpuBlocks) + [ticket + first - cpuBlocks]);
  }

  /** The buffer as the round began, with the pool's half already one more. */
  function HalfAdded(was: seq<real>, end: nat): (s: seq<real>)
    ensures |s| == |was|
  {
    seq(|was|, k requires 0 <= k < |was| => was[k] + if k < end then 1.0 else 0.0)
  }

  /** The pool's half and the device's are apart. */
  lemma HalfAddedKeepsQueue(pending: seq<Submitted>, inFlight: seq<Slot>, was: seq<real>, size: nat, blocks: nat,
                            cpuBlocks: nat, first: nat, firstTicket: nat)
    requires |was| == PartStart(size, blocks) && cpuBlocks <= first
    requires Queued(pending, inFlight, was, size, blocks, first, firstTicket)
    ensures Queued(pending, inFlight, HalfAdded(was, PartStart(size, cpuBlocks)), size, blocks, first, firstTicket)
  {
    forall b: nat | first <= b < blocks
      ensures Block(HalfAdded(was, PartStart(size, cpuBlocks)), size, blocks, b) == Block(was, size, blocks, b)
    {
      BlockBeyondHalf(was, size, blocks, cpuBlocks, b);
    }
  }

  lemma BlockBeyondHalf(was: seq<real>, size: nat, blocks: nat, cpuBlocks: nat, b: nat)
    requires |was| == PartStart(size, blocks) && cpuBlocks <= b < blocks
    ensures Block(HalfAdded(was, PartStart(size, cpuBlocks)), size, blocks, b) == Block(was, size, blocks, b)
  {
    PartsBefore(size, b, blocks);
    if cpuBlocks < b {
      PartsBefore(size, cpuBlocks, b);
    }
  }

  /** The loop body: block b goes out, and if that fills the window the oldest comes back. */
  method SubmitNext(peer: Peer, pending: seq<Submitted>, data: array<real>, size: nat, blocks: nat, cpuBlocks: nat,
                    window: nat, b: nat, ghost was: seq<real>, ghost first: nat, ghost ticket: nat, ghost reaped: seq<nat>)
    returns (rest: seq<Submitted>, ghost first': nat)
    requires |was| == PartStart(size, blocks) && b < blocks && |pending| < Max(window, 1) <= peer.capacity
    requires MidRound(peer, pending, data, size, blocks, cpuBlocks, was, first, b, ticket, reaped)
    modifies peer, data
    ensures |rest| < Max(window, 1)
    ensures MidRound(peer, rest, data, size, blocks, cpuBlocks, was, first', b + 1, ticket, reaped)
  {
    rest := SubmitBlock(peer, pending, data, size, blocks, cpuBlocks, b, was, first, ticket, reaped);
    first' := first;
    if |rest| >= window {
      rest := ReapNext(peer, rest, data, size, blocks, cpuBlocks, was, first, b + 1, ticket, reaped);
      first' := first + 1;
    }
  }

  /**
   The submitting loop: whenever the window is full the oldest block is reaped, so a device with a
   slot for each block of the window, and no more, never runs out.
   */
  method SubmitAll(peer: Peer, data: array<real>, size: nat, blocks: nat, cpuBlocks: nat, window: nat, ghost was: seq<real>)
    returns (pending: seq<Submitted>, ghost first: nat)
    requires data[..] == was && |was| == PartStart(size, blocks) && cpuBlocks <= blocks
    requires peer.inFlight == [] && Max(window, 1) <= peer.capacity
    modifies peer, data
    ensures MidRound(peer, pending, data, size, blocks, cpuBlocks, was, first, blocks, old(peer.tickets), old(peer.reaped))
    ensures |pending| < Max(window, 1)
  {
    pending, first := [], cpuBlocks;
    for b := cpuBlocks to blocks
      invariant MidRound(peer, pending, data, size, blocks, cpuBlocks, was, first, b, old(peer.tickets), old(peer.reaped))
      invariant |pending| < Max(window, 1)
    {
      pending, first := SubmitNext(peer, pending, data, size, blocks, cpuBlocks, window, b, was, first,
                                   old(peer.tickets), old(peer.reaped));
    }
  }

  method Drain(peer: Peer, submitted: seq<Submitted>, data: array<real>, size: nat, blocks: nat, cpuBlocks: nat,
               ghost was: seq<real>, ghost submittedFrom: nat, ghost ticket: nat, ghost reaped: seq<nat>)
    requires |was| == PartStart(size, blocks)
    requires MidRound(peer, submitted, data, size, blocks, cpuBlocks, was, submittedFrom, blocks, ticket, reaped)
    modifies peer, data
    ensures MidRound(peer, [], data, size, blocks, cpuBlocks, was, blocks, blocks, ticket, reaped)
  {
    var pending := submitted;
    ghost var first := submittedFrom;
    while pending != []
      invariant MidRound(peer, pending, data, size, blocks, cpuBlocks, was, first, blocks, ticket, reaped)
      decreases |pending|
    {
      pending := ReapNext(peer, pending, data, size, blocks, cpuBlocks, was, first, blocks, ticket, reaped);
      first := first + 1;
    }
  }

  /** One round: every element of the buffer one more, every block of the device's half through the device once. */
  method Round(peer: Peer, data: array<real>, size: nat, blocks: nat, cpuBlocks: nat, window: nat, chunk: nat)
    requires data.Length == PartStart(size, blocks) && cpuBlocks <= blocks && chunk > 0
    requires peer.inFlight == [] && Max(window, 1) <= peer.capacity
    modifies peer, data
    ensures forall k: nat | k < data.Length :: data[k] == old(data[k]) + 1.0
    ensures peer.inFlight == [] && peer.tickets == old(peer.tickets) + blocks - cpuBlocks
    ensures peer.reaped == old(peer.reaped) + Tickets(old(peer.tickets), old(peer.tickets) + blocks - cpuBlocks)
  {
    ghost var was, ticket, reaped := data[..], peer.tickets, peer.reaped;
    var pending, first := SubmitAll(peer, data, size, blocks, cpuBlocks, window, was);
    if cpuBlocks < blocks {
      PartsBefore(size, cpuBlocks, blocks);
    }
    AddToChunks(data, PartStart(size, cpuBlocks), chunk);
    HalfAddedKeepsQueue(pending, peer.inFlight, was, size, blocks, cpuBlocks, first, ticket + first - cpuBlocks);
    Drain(peer, pending, data, size, blocks, cpuBlocks, HalfAdded(was, PartStart(size, cpuBlocks)), first, ticket, reaped);
  }

  // ----- the share -------------------------------------------------------------------------

  /** The blocks the pool takes at a share of so many per mille. Neither side is left without one. */
  function CpuBlocks(blocks: nat, share: nat): (n: nat)
    requires blocks >= 2
    ensures 1 <= n < blocks
  {
    Clamp(blocks * share / 1000, 1, blocks - 1)
  }

  /** What a side took per block, and at least 1 ns. */
  function NsPerBlock(ms: real, blocks: nat): (ns: real)
    requires blocks > 0
    ensures ns >= 1.0
  {
    var ns := ms * 1000000.0 / blocks as real;
    if ns < 1.0 then 1.0 else ns
  }

  /** The share at which both sides would take as long. */
  function Ideal(cpuNs: real, gpuNs: real): nat
    requires cpuNs >= 1.0 && gpuNs >= 1.0
  {
    var x := gpuNs * 1000.0 / (cpuNs + gpuNs);
    PositiveQuotient(gpuNs * 1000.0, cpuNs + gpuNs);
    x.Floor
  }

  function NewShare(share: nat, ideal: nat): (s: nat)
    ensures 50 <= s <= 950
  {
    Clamp((share + ideal) / 2, 50, 950)
  }

  /** The ideal share is one of per mille, and at least half exactly if the pool is no slower. */
  lemma IdealIsAShare(cpuNs: real, gpuNs: real)
    requires cpuNs >= 1.0 && gpuNs >= 1.0
    ensures Ideal(cpuNs, gpuNs) <= 1000
    ensures Ideal(cpuNs, gpuNs) >= 500 <==> cpuNs <= gpuNs
  {
    var total := cpuNs + gpuNs;
    var x := gpuNs * 1000.0 / total;
    assert x * total == gpuNs * 1000.0;
    QuotientAtMost(gpuNs * 1000.0, total, 1000.0);
    QuotientAtLeastIff(gpuNs * 1000.0, total, 500.0);
  }

  lemma QuotientAtMost(a: real, b: real, c: real)
    requires b > 0.0 && a <= c * b
    ensures a / b <= c
  {
  }

  lemma QuotientAtLeastIff(a: real, b: real, c: real)
    requires b > 0.0
    ensures a / b >= c <==> a >= c * b
  {
  }

  /** What the share is drawn to: the ideal, or the nearer end of the range it is kept in. */
  function Target(ideal: nat): nat {
    Clamp(ideal, 50, 950)
  }

  function Apart(a: nat, b: nat): nat {
    if a < b then b - a else a - b
  }

  /** Each measurement takes away half of what the share is apart from that, to within one, ... */
  lemma ShareHalvesDistance(share: nat, ideal: nat)
    requires 50 <= share <= 950
    ensures Apart(NewShare(share, ideal), Target(ideal)) <= (Apart(share, Target(ideal)) + 1) / 2
    ensures NewShare(share, ideal) == share <==> share == Target(ideal) || share + 1 == ideal <= 950
  {
  }

  function SharesOf(share: nat, ideal: nat, rounds: nat): nat {
    if rounds == 0 then share else NewShare(SharesOf(share, ideal, rounds - 1), ideal)
  }

  lemma {:induction false} SharesApart(share: nat, ideal: nat, rounds: nat, k: nat)
    requires 50 <= share <= 950 && Apart(share, Target(ideal)) <= Pow2(rounds + k)
    ensures 50 <= SharesOf(share, ideal, rounds) <= 950
    ensures Apart(SharesOf(share, ideal, rounds), Target(ideal)) <= Pow2(k)
  {
    if rounds > 0 {
      SharesApart(share, ideal, rounds - 1, k + 1);
      ShareHalvesDistance(SharesOf(share, ideal, rounds - 1), ideal);
    }
  }

  /** ... so whatever the share was, ten rounds that measure the same leave it within one of it. */
  lemma ShareSettles(share: nat, ideal: nat, rounds: nat)
    requires 50 <= share <= 950 && rounds >= 10
    ensures Apart(SharesOf(share, ideal, rounds), Target(ideal)) <= 1
  {
    assert Pow2(2) == 4;
    PowAdds(2, 2, 4, 4);
    PowAdds(4, 4, 16, 16);
    PowAdds(2, 8, 4, 256);
    PowInOrder(10, rounds);
    SharesApart(share, ideal, rounds, 0);
  }

  // ----- the demo --------------------------------------------------------------------------

  /** The milliseconds the two sides measured in a round. */
  datatype Measured = Measured(cpuMs: real, gpuMs: real)

  /** Round after round, whatever is measured: after r rounds every element is r. */
  method Rounds(peer: Peer, size: nat, blocks: nat, window: nat, chunk: nat, measured: seq<Measured>)
    returns (data: array<real>, share: nat)
    requires blocks >= 2 && chunk > 0
    requires peer.inFlight == [] && Max(window, 1) <= peer.capacity
    modifies peer
    ensures fresh(data) && data.Length == blocks * size
    ensures forall k: nat | k < data.Length :: data[k] == |measured| as real
    ensures 50 <= share <= 950 && peer.inFlight == []
  {
    PartStartIsProduct(size, blocks);
    data := new real[blocks * size](_ => 0.0);
    share := 500;
    for round := 0 to |measured|
      invariant forall k: nat | k < data.Length :: data[k] == round as real
      invariant 50 <= share <= 950 && peer.inFlight == []
    {
      var cpuBlocks := CpuBlocks(blocks, share);
      Round(peer, data, size, blocks, cpuBlocks, window, chunk);
      var cpuNs := NsPerBlock(measured[round].cpuMs, cpuBlocks);
      var gpuNs := NsPerBlock(measured[round].gpuMs, blocks - cpuBlocks);
      share := NewShare(share, Ideal(cpuNs, gpuNs));
    }
  }
}
