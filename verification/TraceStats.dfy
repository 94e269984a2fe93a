/**
 The worker timelines of examples/analyze_trace.py: the leaves of a worker in the measured window,
 its busy and idle time, and the parallel efficiency.
 */
module TraceStats {
  import opened Options
  import opened Sorting

  const DISPATCH_ENTER: nat := 1
  const DISPATCH_EXIT: nat := 2
  const LEAF_START: nat := 3
  const LEAF_END: nat := 4

  datatype Row = Row(thread: string, kind: nat, tsc: nat)

  datatype Event = Event(kind: nat, tsc: nat)

  // ----- the events of a worker ------------------------------------------------------------

  predicate InWindow(r: Row, start: nat, end: nat) {
    start <= r.tsc <= end && r.thread != "main"
  }

  function EventsOf(rows: seq<Row>, worker: string, start: nat, end: nat): (events: seq<Event>)
    ensures forall k: nat | k < |events| :: start <= events[k].tsc <= end
  {
    if rows == [] then []
    else
      var r, before := rows[|rows| - 1], EventsOf(rows[..|rows| - 1], worker, start, end);
      if InWindow(r, start, end) && r.thread == worker then before + [Event(r.kind, r.tsc)] else before
  }

  predicate NoLater(a: Event, b: Event) {
    a.tsc <= b.tsc
  }

  // ----- the leaves ------------------------------------------------------------------------

  predicate Marks(e: Event) {
    e.kind == LEAF_START || e.kind == LEAF_END
  }

  /** Event i starts a leaf that event j ends: neither a start nor an end lies between them. */
  ghost predicate Leaf(events: seq<Event>, i: nat, j: nat) {
    && i < j < |events| && events[i].kind == LEAF_START && events[j].kind == LEAF_END
    && forall k: nat | i < k < j :: !Marks(events[k])
  }

  /** The last start or end before event j. */
  function LastMark(events: seq<Event>, j: nat): Option<nat>
    requires j <= |events|
  {
    if j == 0 then None else if Marks(events[j - 1]) then Some(j - 1) else LastMark(events, j - 1)
  }

  /** The leaf still open before event j, if there is one, by where it starts. */
  function OpenAt(events: seq<Event>, j: nat): Option<nat>
    requires j <= |events|
  {
    match LastMark(events, j)
    case Some(i) => if i < |events| && events[i].kind == LEAF_START then Some(i) else None
    case None => None
  }

  lemma {:induction false} LastMarkIs(events: seq<Event>, j: nat, i: nat)
    requires j <= |events|
    ensures LastMark(events, j) == Some(i) <==> i < j && Marks(events[i]) && forall k: nat | i < k < j :: !Marks(events[k])
  {
    if j > 0 {
      LastMarkIs(events, j - 1, i);
    }
  }

  /** The open leaf is the one that an end at j would end. */
  lemma OpenIff(events: seq<Event>, j: nat, i: nat)
    requires j < |events| && events[j].kind == LEAF_END
    ensures OpenAt(events, j) == Some(i) <==> Leaf(events, i, j)
  {
    LastMarkIs(events, j, i);
  }

  /** The time from start to end of each leaf that ends among the first n events, added up, ... */
  function Busy(events: seq<Event>, n: nat): int
    requires n <= |events|
  {
    if n == 0 then 0
    else if events[n - 1].kind == LEAF_END && OpenAt(events, n - 1).Some? then
      Busy(events, n - 1) + events[n - 1].tsc - events[OpenAt(events, n - 1).value].tsc
    else Busy(events, n - 1)
  }

  /** ... and how many there are. */
  function Leaves(events: seq<Event>, n: nat): nat
    requires n <= |events|
  {
    if n == 0 then 0
    else Leaves(events, n - 1) + if events[n - 1].kind == LEAF_END && OpenAt(events, n - 1).Some? then 1 else 0
  }

  datatype Stats = Stats(leafCount: nat, busy: int, first: nat, last: nat, totalEvents: nat)

  function StatsOf(events: seq<Event>): Stats
    requires events != []
  {
    Stats(Leaves(events, |events|), Busy(events, |events|), events[0].tsc, events[|events| - 1].tsc, |events|)
  }

  /** The loop over one worker's sorted events. */
  method Timeline(events: seq<Event>) returns (s: Stats)
    requires events != []
    ensures s == StatsOf(events)
  {
    var busy, count := 0, 0;
    var inLeafStart: Option<nat> := None;
    var first: Option<nat>, last := None, 0;
    for n := 0 to |events|
      invariant busy == Busy(events, n) && count == Leaves(events, n)
      invariant match OpenAt(events, n) case Some(i) => i < n && inLeafStart == Some(events[i].tsc) case None => inLeafStart == None
      invariant if n == 0 then first == None else first == Some(events[0].tsc) && last == events[n - 1].tsc
    {
      var e := events[n];
      if first.None? {
        first := Some(e.tsc);
      }
      last := e.tsc;
      if e.kind == LEAF_START {
        inLeafStart := Some(e.tsc);
      } else if e.kind == LEAF_END && inLeafStart.Some? {
        busy := busy + (e.tsc - inLeafStart.value);
        count := count + 1;
        inLeafStart := None;
      }
    }
    s := Stats(count, busy, first.value, last, |events|);
  }

  /** Leaves of one worker do not overlap: together they fit between its first event and the start of an open one. */
  lemma {:induction false} BusyFits(events: seq<Event>, n: nat)
    requires 0 < n <= |events| && Ordered(events, NoLater)
    ensures 0 <= Busy(events, n)
    ensures Busy(events, n) <= (match OpenAt(events, n) case Some(i) => events[i].tsc case None => events[n - 1].tsc) - events[0].tsc
    ensures OpenAt(events, n).Some? ==> OpenAt(events, n).value < n
  {
    if n > 1 {
      BusyFits(events, n - 1);
    } else {
      assert Busy(events, 0) == 0 && OpenAt(events, 0) == None;
    }
  }

  // ----- the workers -----------------------------------------------------------------------

  ghost predicate Grouped(byWorker: map<string, seq<Event>>, rows: seq<Row>, start: nat, end: nat) {
    && (forall w: string :: w in byWorker <==> w != "main" && EventsOf(rows, w, start, end) != [])
    && (forall w: string | w in byWorker :: byWorker[w] == EventsOf(rows, w, start, end))
  }

  lemma GroupsOneMore(byWorker: map<string, seq<Event>>, rows: seq<Row>, start: nat, end: nat, r: Row)
    requires Grouped(byWorker, rows, start, end)
    ensures var before := if r.thread in byWorker then byWorker[r.thread] else [];
            Grouped(if InWindow(r, start, end) then byWorker[r.thread := before + [Event(r.kind, r.tsc)]] else byWorker,
                    rows + [r], start, end)
  {
    assert (rows + [r])[..|rows|] == rows;
    if r.thread !in byWorker && r.thread != "main" {
      assert EventsOf(rows, r.thread, start, end) == [];
    }
  }

  /** `per_worker_stats`: the workers with an event in the window, each with its own timeline. */
  method PerWorkerStats(rows: seq<Row>, start: nat, end: nat) returns (stats: map<string, Stats>)
    ensures forall w: string :: w in stats <==> w != "main" && EventsOf(rows, w, start, end) != []
    ensures forall w: string | w in stats :: stats[w] == StatsOf(Sorted(EventsOf(rows, w, start, end), NoLater))
  {
    var byWorker: map<string, seq<Event>> := map[];
    for n := 0 to |rows|
      invariant Grouped(byWorker, rows[..n], start, end)
    {
      var r := rows[n];
      GroupsOneMore(byWorker, rows[..n], start, end, r);
      assert rows[..n] + [r] == rows[..n + 1];
      if start <= r.tsc <= end && r.thread != "main" {
        var before := if r.thread in byWorker then byWorker[r.thread] else [];
        byWorker := byWorker[r.thread := before + [Event(r.kind, r.tsc)]];
      }
    }
    assert rows[..|rows|] == rows;
    stats := TimelineOfEach(byWorker);
  }

  method TimelineOfEach(byWorker: map<string, seq<Event>>) returns (stats: map<string, Stats>)
    requires forall w: string | w in byWorker :: byWorker[w] != []
    ensures stats.Keys == byWorker.Keys
    ensures forall w: string | w in stats :: stats[w] == StatsOf(Sorted(byWorker[w], NoLater))
  {
    stats := map[];
    var left := byWorker.Keys;
    while left != {}
      invariant left <= byWorker.Keys && stats.Keys == byWorker.Keys - left
      invariant forall w: string | w in stats :: stats[w] == StatsOf(Sorted(byWorker[w], NoLater))
      decreases |left|
    {
      var w :| w in left;
      var s := Timeline(Sorted(byWorker[w], NoLater));
      stats := stats[w := s];
      left := left - {w};
    }
  }

  // ----- busy, idle, efficient -------------------------------------------------------------

  /** Busy for no longer than from the first event to the last, and these in the window. */
  predicate Fits(s: Stats, start: nat, end: nat) {
    0 <= s.busy <= s.last - s.first && start <= s.first <= s.last <= end
  }

  lemma SortedInWindow(rows: seq<Row>, worker: string, start: nat, end: nat)
    ensures forall e: Event | e in Sorted(EventsOf(rows, worker, start, end), NoLater) :: start <= e.tsc <= end
  {
    var events := EventsOf(rows, worker, start, end);
    SortedSorts(events, NoLater);
    forall e: Event | e in Sorted(events, NoLater)
      ensures start <= e.tsc <= end
    {
      assert e in multiset(Sorted(events, NoLater));
      assert e in events;
    }
  }

  /** For every list of events, ends without a start and starts without an end included. */
  lemma BusyWithinSpan(rows: seq<Row>, worker: string, start: nat, end: nat)
    requires EventsOf(rows, worker, start, end) != []
    ensures Fits(StatsOf(Sorted(EventsOf(rows, worker, start, end), NoLater)), start, end)
  {
    var events := Sorted(EventsOf(rows, worker, start, end), NoLater);
    SortedSorts(EventsOf(rows, worker, start, end), NoLater);
    BusyFits(events, |events|);
    SortedInWindow(rows, worker, start, end);
    assert events[0] in events && events[|events| - 1] in events;
  }

  /** The report takes a first time of 0 for no first time, and then the span for 0. */
  function Span(s: Stats): int {
    if s.first != 0 then s.last - s.first else 0
  }

  function Idle(s: Stats): int {
    Span(s) - s.busy
  }

  lemma IdleNonnegativeIff(rows: seq<Row>, worker: string, start: nat, end: nat)
    requires EventsOf(rows, worker, start, end) != []
    ensures var s := StatsOf(Sorted(EventsOf(rows, worker, start, end), NoLater));
            Idle(s) >= 0 <==> s.first != 0 || s.busy == 0
  {
    BusyWithinSpan(rows, worker, start, end);
  }

  lemma EventsOneMore(rows: seq<Row>, r: Row, worker: string, start: nat, end: nat)
    ensures EventsOf(rows + [r], worker, start, end)
         == EventsOf(rows, worker, start, end)
          + if InWindow(r, start, end) && r.thread == worker then [Event(r.kind, r.tsc)] else []
  {
    assert (rows + [r])[..|rows|] == rows;
  }

  lemma TwoInOrder(a: Event, b: Event)
    requires a.tsc <= b.tsc
    ensures Sorted([a, b], NoLater) == [a, b]
  {
    assert [a, b][..1] == [a] && [a][..0] == [];
    assert Sorted([a], NoLater) == [a];
  }

  lemma OneLeaf(a: Event, b: Event)
    requires a.kind == LEAF_START && b.kind == LEAF_END
    ensures StatsOf([a, b]) == Stats(1, b.tsc - a.tsc, a.tsc, b.tsc, 2)
  {
    var events := [a, b];
    LastMarkIs(events, 1, 0);
    OpenIff(events, 1, 0);
    assert OpenAt(events, 0) == None && OpenAt(events, 1) == Some(0);
    assert Busy(events, 0) == 0 && Leaves(events, 0) == 0;
    assert events[0].kind != LEAF_END && events[1].kind == LEAF_END;
    assert Busy(events, 1) == 0 && Leaves(events, 1) == 0;
    assert Busy(events, 2) == b.tsc - a.tsc && Leaves(events, 2) == 1;
  }

  /** A window that starts at 0 can show a worker with less than no idle time. */
  lemma IdleCanBeNegative(worker: string)
    requires worker != "main"
    ensures var events := EventsOf([Row(worker, LEAF_START, 0), Row(worker, LEAF_END, 5)], worker, 0, 9);
            events != [] && Idle(StatsOf(Sorted(events, NoLater))) == -5
  {
    var r, r' := Row(worker, LEAF_START, 0), Row(worker, LEAF_END, 5);
    EventsOneMore([], r, worker, 0, 9);
    EventsOneMore([r], r', worker, 0, 9);
    assert [r] + [r'] == [r, r'];
    TwoInOrder(Event(LEAF_START, 0), Event(LEAF_END, 5));
    OneLeaf(Event(LEAF_START, 0), Event(LEAF_END, 5));
  }

  /** The window `main` measures; it gives up when either end is 0. */
  function MeasuredWindow(rows: seq<Row>): Option<(nat, nat)> {
    var enter, exit := FirstOfMain(rows, DISPATCH_ENTER), FirstOfMain(rows, DISPATCH_EXIT);
    if enter.None? || exit.None? || enter.value == 0 || exit.value == 0 then None else Some((enter.value, exit.value))
  }

  function FirstOfMain(rows: seq<Row>, kind: nat): Option<nat> {
    if rows == [] then None
    else if rows[0].thread == "main" && rows[0].kind == kind then Some(rows[0].tsc)
    else FirstOfMain(rows[1..], kind)
  }

  /** So in the window that is reported, idle time is never negative. */
  lemma ReportedIdleNonnegative(rows: seq<Row>, worker: string)
    requires MeasuredWindow(rows).Some?
    requires var w := MeasuredWindow(rows).value; EventsOf(rows, worker, w.0, w.1) != []
    ensures var w := MeasuredWindow(rows).value; Idle(StatsOf(Sorted(EventsOf(rows, worker, w.0, w.1), NoLater))) >= 0
  {
    var w := MeasuredWindow(rows).value;
    BusyWithinSpan(rows, worker, w.0, w.1);
  }

  function TotalBusy(stats: seq<Stats>): int {
    if stats == [] then 0 else TotalBusy(stats[..|stats| - 1]) + stats[|stats| - 1].busy
  }

  /** Busy time per worker over the window; with no window to divide by there is no efficiency. */
  function Efficiency(stats: seq<Stats>, start: nat, end: nat): Option<real> {
    if start == end then None
    else
      var ideal := if |stats| > 0 then TotalBusy(stats) as real / |stats| as real else 0.0;
      Some(ideal / (end - start) as real)
  }

  lemma {:induction false} TotalBusyFits(stats: seq<Stats>, start: nat, end: nat)
    requires start <= end && forall k: nat | k < |stats| :: Fits(stats[k], start, end)
    ensures 0 <= TotalBusy(stats) <= |stats| * (end - start)
  {
    if stats != [] {
      TotalBusyFits(stats[..|stats| - 1], start, end);
      assert |stats| * (end - start) == (|stats| - 1) * (end - start) + (end - start);
    }
  }

  lemma EfficiencyFits(stats: seq<Stats>, start: nat, end: nat)
    requires start < end && forall k: nat | k < |stats| :: Fits(stats[k], start, end)
    ensures Efficiency(stats, start, end).Some? && 0.0 <= Efficiency(stats, start, end).value <= 1.0
  {
    TotalBusyFits(stats, start, end);
    QuotientsFit(TotalBusy(stats), if stats == [] then 1 else |stats|, end - start);
  }

  /** However many workers there are, and whatever they recorded, the efficiency is between 0 and 1. */
  lemma EfficiencyAtMostOne(rows: seq<Row>, workers: seq<string>, stats: seq<Stats>, start: nat, end: nat)
    requires start < end && |workers| == |stats|
    requires forall k: nat | k < |workers| ::
               && EventsOf(rows, workers[k], start, end) != []
               && stats[k] == StatsOf(Sorted(EventsOf(rows, workers[k], start, end), NoLater))
    ensures Efficiency(stats, start, end).Some? && 0.0 <= Efficiency(stats, start, end).value <= 1.0
  {
    forall k: nat | k < |stats|
      ensures Fits(stats[k], start, end)
    {
      BusyWithinSpan(rows, workers[k], start, end);
    }
    EfficiencyFits(stats, start, end);
  }

  lemma QuotientsFit(total: int, n: nat, window: nat)
    requires n > 0 && window > 0 && 0 <= total <= n * window
    ensures 0.0 <= total as real / n as real / window as real <= 1.0
  {
    assert (n * window) as real == n as real * window as real;
    RealQuotientsFit(total as real, n as real, window as real);
  }

  lemma RealQuotientsFit(total: real, n: real, window: real)
    requires n > 0.0 && window > 0.0 && 0.0 <= total <= n * window
    ensures 0.0 <= total / n / window <= 1.0
  {
    var ideal := total / n;
    assert ideal * n == total;
    assert 0.0 <= ideal <= window;
  }
}
