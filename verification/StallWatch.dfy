/**
 The stall instrument of benches/simc_cooperative.rs: what its stamps say of the dispatch in flight,
 when its watchdog fires, and the runs it prints index lists as.
 */
module StallReports {
  import opened Options
  import opened Layout

  /** A watch with flags instead of stamps, which opening a dispatch would have to clear. */
  datatype Flags = Flags(arm: string, width: nat, started: set<nat>, finished: set<nat>, ran: set<string>)

  function Cleared(arm: string, width: nat): Flags {
    Flags(arm, width, {}, {}, {})
  }

  function Started(f: Flags, i: nat, widest: nat, thread: string): Flags {
    f.(started := if i < widest then f.started + {i} else f.started, ran := f.ran + {thread})
  }

  function Finished(f: Flags, i: nat, widest: nat): Flags {
    f.(finished := if i < widest then f.finished + {i} else f.finished)
  }

  /** What `report` prints of a dispatch. */
  datatype Report = Report(arm: string, width: nat, never: seq<nat>, unfinished: seq<nat>, ran: set<string>, idle: set<string>)

  /** The indices below n in the set, in increasing order. */
  function List(members: set<nat>, n: nat): seq<nat> {
    if n == 0 then [] else if n - 1 in members then List(members, n - 1) + [n - 1] else List(members, n - 1)
  }

  lemma {:induction false} ListHolds(members: set<nat>, n: nat, i: nat)
    ensures i in List(members, n) <==> i < n && i in members
  {
    if n > 0 {
      ListHolds(members, n - 1, i);
    }
  }

  /** The set of what is listed. */
  function Listed(members: set<nat>, n: nat): (s: set<nat>)
    ensures forall i: nat :: i in s <==> i < n && i in members
  {
    if n == 0 then {} else if n - 1 in members then Listed(members, n - 1) + {n - 1} else Listed(members, n - 1)
  }

  lemma {:induction false} ListLength(members: set<nat>, n: nat)
    ensures |List(members, n)| == |Listed(members, n)|
  {
    if n > 0 {
      ListLength(members, n - 1);
      assert n - 1 !in Listed(members, n - 1);
    }
  }

  lemma {:induction false} ListIncreases(members: set<nat>, n: nat)
    ensures forall j: nat, k: nat | j < k < |List(members, n)| :: List(members, n)[j] < List(members, n)[k]
    ensures forall j: nat | j < |List(members, n)| :: List(members, n)[j] < n
  {
    if n > 0 {
      ListIncreases(members, n - 1);
    }
  }

  /** Indices whose stamp is g. */
  function Stamped(stamps: seq<nat>, g: nat): (s: set<nat>)
    ensures forall i: nat :: i in s <==> i < |stamps| && stamps[i] == g
  {
    set i | i in Below(|stamps|) && stamps[i] == g
  }

  function Seen(threads: map<string, nat>, g: nat): set<string> {
    set name | name in threads && threads[name] == g
  }

  lemma StampOne(stamps: seq<nat>, i: nat, g: nat)
    requires i < |stamps|
    ensures Stamped(stamps[i := g], g) == Stamped(stamps, g) + {i}
  {
  }

  /** A generation no stamp has yet. */
  lemma StampNone(stamps: seq<nat>, g: nat)
    requires forall i: nat | i < |stamps| :: stamps[i] < g
    ensures Stamped(stamps, g) == {}
  {
  }

  lemma SeenOne(threads: map<string, nat>, name: string, g: nat)
    ensures Seen(threads[name := g], g) == Seen(threads, g) + {name}
  {
  }

  /** The watch with one call at a time; module StallRace takes the calls apart into their loads and stores. */
  class StallWatch {
    const started: array<nat>
    const finished: array<nat>
    var threads: map<string, nat>
    var generation: nat
    var width: nat
    var arm: string
    /** Each thread's `ANNOUNCED_IN`; a thread not in the map has announced itself in no dispatch. */
    var announced: map<nat, nat>
    /** Each thread's name. */
    const names: seq<string>

    ghost predicate Valid()
      reads this, started, finished
    {
      && started.Length == finished.Length
      && started != finished
      && (forall i: nat | i < started.Length :: started[i] <= generation && finished[i] <= generation)
      && (forall i: nat | i < started.Length && finished[i] == generation :: started[i] == generation)
      && (forall t: string | t in threads :: threads[t] <= generation)
      && (forall id: nat | id in announced ::
            && id < |names| && names[id] in threads
            && announced[id] <= threads[names[id]])
    }

    /** The stamps read as flags of the dispatch in flight. */
    ghost function Now(): Flags
      reads this, started, finished
    {
      Flags(arm, width, Stamped(started[..], generation), Stamped(finished[..], generation), Seen(threads, generation))
    }

    constructor (widest: nat, names: seq<string>)
      ensures Valid() && generation == 0 && width == 0 && started.Length == widest
      ensures fresh(started) && fresh(finished)
      ensures this.names == names
    {
      started := new nat[widest](_ => 0);
      finished := new nat[widest](_ => 0);
      threads := map[];
      generation := 0;
      width := 0;
      arm := "";
      announced := map[];
      this.names := names;
    }

    /** Opening a dispatch clears every flag, and writes nothing but three fields to do it. */
    method Begin(armName: string, n: nat)
      requires Valid()
      modifies this`arm, this`width, this`generation
      ensures Valid() && Now() == Cleared(armName, n)
      ensures generation == old(generation) + 1
    {
      if arm != armName {
        arm := armName;
      }
      width := n;
      generation := generation + 1;
      StampNone(started[..], generation);
      StampNone(finished[..], generation);
    }

    method RecordStart(i: nat, thread: nat)
      requires Valid() && thread < |names|
      modifies this`threads, this`announced, started
      ensures Valid() && Now() == Started(old(Now()), i, started.Length, names[thread])
    {
      if i < started.Length {
        StampOne(started[..], i, generation);
        ghost var before := started[..];
        started[i] := generation;
        assert started[..] == before[i := generation];
      }
      Announce(thread);
    }

    /** A thread enters its name once a dispatch. */
    method Announce(thread: nat)
      requires Valid() && thread < |names|
      modifies this`threads, this`announced
      ensures Valid() && threads.Keys == old(threads.Keys) + {names[thread]}
      ensures Now() == old(Now()).(ran := old(Now()).ran + {names[thread]})
    {
      if thread !in announced || announced[thread] != generation {
        SeenOne(threads, names[thread], generation);
        announced := announced[thread := generation];
        threads := threads[names[thread] := generation];
      } else {
        assert names[thread] in Seen(threads, generation);
      }
    }

    /** By the closure that recorded its start in this dispatch. */
    method RecordFinish(i: nat)
      requires Valid() && (i < started.Length ==> i in Now().started)
      modifies finished
      ensures Valid() && Now() == Finished(old(Now()), i, started.Length)
    {
      if i < finished.Length {
        StampOne(finished[..], i, generation);
        ghost var before := finished[..];
        finished[i] := generation;
        assert finished[..] == before[i := generation];
      }
    }

    /** The first filter. */
    method FilterNever(n: nat, g: nat) returns (never: seq<nat>)
      requires n <= started.Length
      ensures never == List(Below(n) - Stamped(started[..], g), n)
    {
      never := [];
      ghost var unstarted := Below(n) - Stamped(started[..], g);
      for i := 0 to n
        invariant never == List(unstarted, i)
      {
        if started[i] != g {
          never := never + [i];
        }
      }
    }

    /** The second, which loads each start again. */
    method FilterUnfinished(n: nat, g: nat) returns (unfinished: seq<nat>)
      requires n <= started.Length == finished.Length
      ensures unfinished == List(Stamped(started[..], g) - Stamped(finished[..], g), n)
    {
      unfinished := [];
      ghost var open := Stamped(started[..], g) - Stamped(finished[..], g);
      for i := 0 to n
        invariant unfinished == List(open, i)
      {
        if started[i] == g && finished[i] != g {
          unfinished := unfinished + [i];
        }
      }
    }

    /** With nobody at work meanwhile, what is printed is what the flags of a cleared watch would have said. */
    method MakeReport() returns (r: Report)
      requires Valid()
      ensures r.arm == arm && r.width == Min(width, started.Length)
      ensures r.never == List(Below(r.width) - Now().started, r.width)
      ensures r.unfinished == List(Now().started - Now().finished, r.width)
      ensures r.ran == Now().ran && r.idle == threads.Keys - Now().ran
      ensures Now().finished <= Now().started
    {
      var n := Min(width, started.Length);
      var never := FilterNever(n, generation);
      var unfinished := FilterUnfinished(n, generation);
      var ran := set t | t in threads && threads[t] == generation;
      var idle := set t | t in threads && threads[t] != generation;
      r := Report(arm, n, never, unfinished, ran, idle);
    }
  }

  /**
   Of one reading of the flags: every index of the fan-out has never started, has started and not
   finished, or has finished, and no index two of these.
   */
  lemma ReportPartitions(f: Flags, n: nat, i: nat)
    requires f.finished <= f.started && i < n
    ensures var never, unfinished := List(Below(n) - f.started, n), List(f.started - f.finished, n);
            && (i in f.finished <==> i !in never && i !in unfinished)
            && !(i in never && i in unfinished)
            && |never| + |unfinished| + |f.finished * Below(n)| == n
  {
    ListHolds(Below(n) - f.started, n, i);
    ListHolds(f.started - f.finished, n, i);
    ListLength(Below(n) - f.started, n);
    ListLength(f.started - f.finished, n);
    var a, b, c := Listed(Below(n) - f.started, n), Listed(f.started - f.finished, n), f.finished * Below(n);
    assert a + b + c == Below(n);
    ThreeParts(a, b, c, Below(n));
  }

  lemma ThreeParts(a: set<nat>, b: set<nat>, c: set<nat>, all: set<nat>)
    requires a !! b && a !! c && b !! c && a + b + c == all
    ensures |a| + |b| + |c| == |all|
  {
    assert |a + b| == |a| + |b|;
    assert |(a + b) + c| == |a + b| + |c|;
  }

  // ----- the watchdog ----------------------------------------------------------------------

  /** The last `stall` polls, and the value they started from, all read the same generation. */
  ghost predicate Still(polls: seq<nat>, k: nat, stall: nat) {
    stall <= k < |polls| && forall j: nat | k - stall <= j <= k :: polls[j] == polls[k]
  }

  /** `polls[0]` is read before the loop; it fires at the first poll that makes the stall complete. */
  method Watchdog(polls: seq<nat>, stall: nat) returns (fired: Option<nat>)
    requires polls != [] && stall > 0
    ensures fired.Some? ==> Still(polls, fired.value, stall)
    ensures forall k: nat | k < |polls| && (fired.Some? ==> k < fired.value) :: !Still(polls, k, stall)
  {
    var last, still := polls[0], 0;
    for k := 1 to |polls|
      invariant last == polls[k - 1] && still <= k - 1 && still < stall
      invariant forall j: nat | k - 1 - still <= j <= k - 1 :: polls[j] == last
      invariant still < k - 1 ==> polls[k - 2 - still] != last
      invariant forall j: nat | j < k :: !Still(polls, j, stall)
    {
      var now := polls[k];
      if now == last {
        still := still + 1;
        if still >= stall {
          return Some(k);
        }
      } else {
        last := now;
        still := 0;
      }
    }
    fired := None;
  }

  /** Generations only grow, so two equal readings a stall apart are enough. */
  lemma StillIff(polls: seq<nat>, k: nat, stall: nat)
    requires forall i: nat, j: nat | i < j < |polls| :: polls[i] <= polls[j]
    ensures Still(polls, k, stall) <==> stall <= k < |polls| && polls[k - stall] == polls[k]
  {
    if stall <= k < |polls| && polls[k - stall] == polls[k] {
      forall j: nat | k - stall <= j <= k
        ensures polls[j] == polls[k]
      {
        assert polls[k - stall] <= polls[j] || j == k - stall;
        assert polls[j] <= polls[k] || j == k;
      }
    }
  }
}

/** `summarize`: index lists printed as runs. */
module Summaries {
  import opened Options
  import opened Text

  /** The indices from start to end, both included. */
  datatype Run = Run(start: nat, end: nat)

  function Range(a: nat, b: nat): seq<nat>
    requires a <= b
  {
    if a == b then [a] else Range(a, b - 1) + [b]
  }

  predicate Sound(runs: seq<Run>) {
    forall k: nat | k < |runs| :: runs[k].start <= runs[k].end
  }

  function Expand(runs: seq<Run>): seq<nat>
    requires Sound(runs)
  {
    if runs == [] then [] else Expand(runs[..|runs| - 1]) + Range(runs[|runs| - 1].start, runs[|runs| - 1].end)
  }

  // ----- the text of a run, and back -------------------------------------------------------

  function RunText(r: Run): string {
    if r.start == r.end then Decimal(r.start) else Decimal(r.start) + ("..=" + Decimal(r.end))
  }

  function ReadRun(text: string): Option<Run> {
    var k := DigitsAhead(text);
    var rest := text[k..];
    if k == 0 then None
    else if rest == "" then Some(Run(DecimalValue(text[..k]), DecimalValue(text[..k])))
    else if "..=" < rest && AllDigits(rest[3..]) then Some(Run(DecimalValue(text[..k]), DecimalValue(rest[3..])))
    else None
  }

  /** A number and what follows it come apart where the digits end. */
  lemma NumberComesOff(digits: string, rest: string)
    requires AllDigits(digits) && digits != [] && (rest != "" ==> !IsDigit(rest[0]))
    ensures var k := DigitsAhead(digits + rest);
            k == |digits| && (digits + rest)[..k] == digits && (digits + rest)[k..] == rest
  {
    DigitsAheadOf(digits, rest);
  }

  lemma ReadsOne(n: nat)
    ensures ReadRun(Decimal(n)) == Some(Run(n, n))
  {
    NumberComesOff(Decimal(n), "");
    assert Decimal(n) + "" == Decimal(n);
    DecimalRoundTrip(n);
  }

  lemma ReadsTwo(a: string, b: string)
    requires AllDigits(a) && a != [] && AllDigits(b) && b != []
    ensures ReadRun(a + ("..=" + b)) == Some(Run(DecimalValue(a), DecimalValue(b)))
  {
    NumberComesOff(a, "..=" + b);
    assert ("..=" + b)[3..] == b;
  }

  lemma ReadsRun(r: Run)
    ensures ReadRun(RunText(r)) == Some(r)
  {
    if r.start == r.end {
      ReadsOne(r.start);
    } else {
      ReadsTwo(Decimal(r.start), Decimal(r.end));
      DecimalRoundTrip(r.start);
      DecimalRoundTrip(r.end);
    }
  }

  /** No digit, and no other character of a run, is a comma or a letter. */
  lemma PlainText(r: Run)
    ensures ',' !in RunText(r) && 'n' !in RunText(r)
  {
    var a, b := Decimal(r.start), Decimal(r.end);
    assert AllDigits(a) && AllDigits(b);
  }

  // ----- lists of texts --------------------------------------------------------------------

  function Join(parts: seq<string>): string
    requires parts != []
  {
    if |parts| == 1 then parts[0] else parts[0] + (", " + Join(parts[1..]))
  }

  function Split(text: string): (parts: seq<string>)
    ensures parts != []
    decreases |text|
  {
    if text == "" then [""]
    else if ", " <= text then [""] + Split(text[2..])
    else
      var rest := Split(text[1..]);
      [[text[0]] + rest[0]] + rest[1..]
  }

  lemma {:induction false} SplitsWhole(part: string)
    requires ',' !in part
    ensures Split(part) == [part]
  {
    if part != "" {
      SplitsWhole(part[1..]);
      assert part == [part[0]] + part[1..];
    }
  }

  lemma {:induction false} SplitsPart(part: string, rest: string)
    requires ',' !in part
    ensures Split(part + (", " + rest)) == [part] + Split(rest)
  {
    if part == "" {
      assert part + (", " + rest) == ", " + rest && (", " + rest)[2..] == rest;
    } else {
      SplitsPart(part[1..], rest);
      assert (part + (", " + rest))[1..] == part[1..] + (", " + rest);
      assert part == [part[0]] + part[1..];
    }
  }

  lemma {:induction false} SplitsJoined(parts: seq<string>)
    requires parts != [] && NoneHas(parts, ',')
    ensures Split(Join(parts)) == parts
  {
    if |parts| == 1 {
      SplitsWhole(parts[0]);
    } else {
      SplitsJoined(parts[1..]);
      SplitsPart(parts[0], Join(parts[1..]));
    }
  }

  predicate NoneHas(parts: seq<string>, c: char) {
    forall k: nat | k < |parts| :: c !in parts[k]
  }

  /** Every part as `read` has it, if it can read them all. */
  function ReadAll(parts: seq<string>, read: string -> Option<Run>): Option<seq<Run>> {
    if parts == [] then Some([])
    else
      match (ReadAll(parts[..|parts| - 1], read), read(parts[|parts| - 1]))
      case (Some(runs), Some(r)) => Some(runs + [r])
      case _ => None
  }

  lemma {:induction false} ReadsEach(parts: seq<string>, runs: seq<Run>, read: string -> Option<Run>)
    requires |parts| == |runs| && forall k: nat | k < |runs| :: read(parts[k]) == Some(runs[k])
    ensures ReadAll(parts, read) == Some(runs)
  {
    if parts != [] {
      ReadsEach(parts[..|parts| - 1], runs[..|runs| - 1], read);
      assert runs == runs[..|runs| - 1] + [runs[|runs| - 1]];
    }
  }

  function Texts(runs: seq<Run>): (texts: seq<string>)
    ensures |texts| == |runs|
  {
    if runs == [] then [] else Texts(runs[..|runs| - 1]) + [RunText(runs[|runs| - 1])]
  }

  lemma {:induction false} TextAt(runs: seq<Run>, k: nat)
    requires k < |runs|
    ensures Texts(runs)[k] == RunText(runs[k])
  {
    if k < |runs| - 1 {
      TextAt(runs[..|runs| - 1], k);
    }
  }

  lemma ReadsTexts(runs: seq<Run>)
    ensures ReadAll(Texts(runs), ReadRun) == Some(runs)
  {
    forall k: nat | k < |runs|
      ensures ReadRun(Texts(runs)[k]) == Some(runs[k])
    {
      TextAt(runs, k);
      ReadsRun(runs[k]);
    }
    ReadsEach(Texts(runs), runs, ReadRun);
  }

  lemma {:induction false} TextsArePlain(runs: seq<Run>)
    ensures NoneHas(Texts(runs), ',') && NoneHas(Texts(runs), 'n')
  {
    if runs != [] {
      TextsArePlain(runs[..|runs| - 1]);
      PlainText(runs[|runs| - 1]);
    }
  }

  /** The list a text stands for. */
  function Decode(text: string): Option<seq<nat>> {
    if text == "none" then Some([])
    else
      match ReadAll(Split(text), ReadRun)
      case None => None
      case Some(runs) => if Sound(runs) then Some(Expand(runs)) else None
  }

  lemma NotNone(parts: seq<string>)
    requires parts != [] && NoneHas(parts, ',') && NoneHas(parts, 'n')
    ensures Join(parts) != "none" && Split(Join(parts)) == parts
  {
    SplitsJoined(parts);
    SplitsWhole("none");
    assert "none"[0] == 'n';
    assert Join(parts) == "none" ==> parts == ["none"];
  }

  lemma DecodesTexts(runs: seq<Run>)
    requires runs != [] && Sound(runs)
    ensures Join(Texts(runs)) != "none" && Decode(Join(Texts(runs))) == Some(Expand(runs))
  {
    ReadsTexts(runs);
    TextsArePlain(runs);
    NotNone(Texts(runs));
  }

  // ----- the runs of a list ----------------------------------------------------------------

  /** Runs of the list none of which could have been printed as part of the one before it. */
  ghost predicate Covers(runs: seq<Run>, indices: seq<nat>) {
    && runs != [] && Sound(runs) && Expand(runs) == indices
    && forall k: nat | 0 < k < |runs| :: runs[k].start != runs[k - 1].end + 1
  }

  /** What the loop has after some of the list: the texts of the closed runs, and one run open. */
  ghost predicate SoFar(texts: seq<string>, closed: seq<Run>, start: nat, prev: nat, indices: seq<nat>) {
    Covers(closed + [Run(start, prev)], indices) && texts == Texts(closed)
  }

  lemma CoversOne(i: nat)
    ensures Covers([Run(i, i)], [i])
  {
    assert [Run(i, i)][..0] == [];
    assert Expand([Run(i, i)]) == Expand([]) + Range(i, i);
  }

  lemma OpensRun(i: nat)
    ensures SoFar([], [], i, i, [i])
  {
    CoversOne(i);
    assert [] + [Run(i, i)] == [Run(i, i)];
  }

  lemma ExtendsRun(texts: seq<string>, closed: seq<Run>, start: nat, prev: nat, indices: seq<nat>)
    requires SoFar(texts, closed, start, prev, indices)
    ensures SoFar(texts, closed, start, prev + 1, indices + [prev + 1])
  {
    ExpandLast(closed, start, prev);
    ExpandLast(closed, start, prev + 1);
    var runs, longer := closed + [Run(start, prev)], closed + [Run(start, prev + 1)];
    assert runs[|closed|] == Run(start, prev);
    assert forall k: nat | k < |closed| :: longer[k] == runs[k];
  }

  lemma ExpandLast(closed: seq<Run>, start: nat, end: nat)
    requires Sound(closed) && start <= end
    ensures Sound(closed + [Run(start, end)])
    ensures Expand(closed + [Run(start, end)]) == Expand(closed) + Range(start, end)
  {
    assert (closed + [Run(start, end)])[..|closed|] == closed;
  }

  lemma ClosesRun(texts: seq<string>, closed: seq<Run>, start: nat, prev: nat, indices: seq<nat>)
    requires SoFar(texts, closed, start, prev, indices)
    ensures texts + [RunText(Run(start, prev))] == Texts(closed + [Run(start, prev)])
  {
    assert (closed + [Run(start, prev)])[..|closed|] == closed;
  }

  lemma CoversNext(runs: seq<Run>, indices: seq<nat>, i: nat)
    requires Covers(runs, indices) && i != runs[|runs| - 1].end + 1
    ensures Covers(runs + [Run(i, i)], indices + [i])
  {
    ExpandLast(runs, i, i);
  }

  lemma NextRun(texts: seq<string>, closed: seq<Run>, start: nat, prev: nat, indices: seq<nat>, i: nat)
    requires SoFar(texts, closed, start, prev, indices) && i != prev + 1
    ensures SoFar(texts + [RunText(Run(start, prev))], closed + [Run(start, prev)], i, i, indices + [i])
  {
    ClosesRun(texts, closed, start, prev, indices);
    CoversNext(closed + [Run(start, prev)], indices, i);
  }

  /** A text that decodes to the list, and has it in runs that could not be longer. */
  ghost predicate Prints(text: string, indices: seq<nat>) {
    && Decode(text) == Some(indices)
    && if indices == [] then text == "none"
       else text != "none" && exists runs: seq<Run> :: Covers(runs, indices) && text == Join(Texts(runs))
  }

  lemma PrintsNone()
    ensures Prints("none", [])
  {
  }

  lemma PrintsAll(texts: seq<string>, closed: seq<Run>, start: nat, prev: nat, indices: seq<nat>)
    requires indices != [] && Taken(texts, closed, start, prev, indices, |indices|)
    ensures Prints(Join(texts + [RunText(Run(start, prev))]), indices)
  {
    assert indices[..|indices|] == indices;
    ClosesRun(texts, closed, start, prev, indices);
    DecodesTexts(closed + [Run(start, prev)]);
  }

  /** What the loop has after the first k indices. */
  ghost predicate Taken(texts: seq<string>, closed: seq<Run>, start: nat, prev: nat, indices: seq<nat>, k: nat) {
    k <= |indices| && SoFar(texts, closed, start, prev, indices[..k])
  }

  /** The loop body: one more index, and the texts with the run that was open if it has to close. */
  method TakeIndex(texts: seq<string>, start: nat, prev: nat, indices: seq<nat>, k: nat, ghost closed: seq<Run>)
    returns (texts': seq<string>, start': nat, ghost closed': seq<Run>)
    requires k < |indices| && Taken(texts, closed, start, prev, indices, k)
    ensures Taken(texts', closed', start', indices[k], indices, k + 1)
  {
    var i := indices[k];
    texts', start', closed' := texts, start, closed;
    assert indices[..k] + [i] == indices[..k + 1];
    if i != prev + 1 {
      NextRun(texts, closed, start, prev, indices[..k], i);
      texts' := texts + [RunText(Run(start, prev))];
      closed' := closed + [Run(start, prev)];
      start' := i;
    } else {
      ExtendsRun(texts, closed, start, prev, indices[..k]);
    }
  }

  lemma TakesFirst(indices: seq<nat>)
    requires indices != []
    ensures Taken([], [], indices[0], indices[0], indices, 1)
  {
    OpensRun(indices[0]);
    assert indices[..1] == [indices[0]];
  }

  method Summarize(indices: seq<nat>) returns (text: string)
    ensures Prints(text, indices)
  {
    if indices == [] {
      PrintsNone();
      return "none";
    }
    var texts: seq<string> := [];
    var start, prev := indices[0], indices[0];
    ghost var closed: seq<Run> := [];
    TakesFirst(indices);
    for k := 1 to |indices|
      invariant Taken(texts, closed, start, prev, indices, k)
    {
      texts, start, closed := TakeIndex(texts, start, prev, indices, k, closed);
      prev := indices[k];
    }
    PrintsAll(texts, closed, start, prev, indices);
    texts := texts + [RunText(Run(start, prev))];
    text := Join(texts);
  }
}
