/**
 The open-addressed call-site registry of examples/call_site_registry_cost.rs: nodes published into
 a fixed table by compare-exchange, never moved and never removed, and found again by probing from
 the key's home slot. `TableInsert` and `TableLookup` are the two loops run alone; the second half
 interleaves any number of them, each atomic load and each compare-exchange being one step.
 */
module ProbeTable {
  import opened Options

  datatype Node = Node(key: nat, payload: nat)

  type Table = seq<Option<Node>>

  /** What a lookup answers for a key the registry does not hold. */
  const ABSENT: nat := 0

  // ----- probe paths -----------------------------------------------------------------------

  /** The slot a key's probe number `probe` looks at. */
  function Slot(size: nat, key: nat, probe: nat): (j: nat)
    requires size > 0
    ensures j < size
  {
    (key % size + probe) % size
  }

  function Following(size: nat, idx: nat): (j: nat)
    requires size > 0
  {
    (idx + 1) % size
  }

  /** The probe at which a key's path reaches slot j. */
  function ProbeOf(size: nat, key: nat, j: nat): (probe: nat)
    requires size > 0 && j < size
    ensures probe < size
  {
    if j >= key % size then j - key % size else j + size - key % size
  }

  lemma SlotWraps(size: nat, key: nat, probe: nat)
    requires size > 0 && probe < size
    ensures Slot(size, key, probe) == if key % size + probe < size then key % size + probe else key % size + probe - size
  {
    SumWraps(size, key % size, probe);
  }

  lemma SumWraps(size: nat, home: nat, probe: nat)
    requires home < size && probe < size
    ensures (home + probe) % size == if home + probe < size then home + probe else home + probe - size
  {
    if home + probe >= size {
      assert home + probe == size + (home + probe - size);
      WrapOnce(size, home + probe - size);
    }
  }

  lemma WrapOnce(size: nat, r: nat)
    requires r < size
    ensures (size + r) % size == r
  {
    assert size + r == 1 * size + r;
  }

  lemma ProbeOfSlot(size: nat, key: nat, probe: nat)
    requires size > 0 && probe < size
    ensures ProbeOf(size, key, Slot(size, key, probe)) == probe
  {
    SlotWraps(size, key, probe);
  }

  lemma SlotOfProbe(size: nat, key: nat, j: nat)
    requires size > 0 && j < size
    ensures Slot(size, key, ProbeOf(size, key, j)) == j
  {
    SlotWraps(size, key, ProbeOf(size, key, j));
  }

  lemma SlotFollows(size: nat, key: nat, probe: nat)
    requires size > 0 && probe < size
    ensures Following(size, Slot(size, key, probe)) == Slot(size, key, probe + 1)
  {
    SumFollows(size, key % size, probe);
  }

  lemma SumFollows(size: nat, home: nat, probe: nat)
    requires home < size && probe < size
    ensures ((home + probe) % size + 1) % size == (home + (probe + 1)) % size
  {
    SumWraps(size, home, probe);
    if home + probe >= size {
      var r := home + probe - size;
      assert home + (probe + 1) == size + (r + 1);
      WrapOnce(size, r + 1);
    }
  }

  // ----- the simple map a table stands for -------------------------------------------------

  /** The payload a scan of key's path from `probe` on comes back with. */
  function Find(t: Table, key: nat, probe: nat): Option<nat>
    requires |t| > 0
    decreases |t| - probe
  {
    if probe >= |t| then None
    else
      match t[Slot(|t|, key, probe)]
      case None => None
      case Some(node) => if node.key == key then Some(node.payload) else Find(t, key, probe + 1)
  }

  function Answer(found: Option<nat>): nat {
    match found
    case None => ABSENT
    case Some(payload) => payload
  }

  /** The first `probes` slots of key's path are taken. */
  ghost predicate PathTaken(t: Table, key: nat, probes: nat)
    requires |t| > 0
  {
    forall q: nat | q < probes :: t[Slot(|t|, key, q)].Some?
  }

  /** The first `probes` slots of key's path are taken, by other keys. */
  ghost predicate PathMisses(t: Table, key: nat, probes: nat)
    requires |t| > 0
  {
    forall q: nat | q < probes :: t[Slot(|t|, key, q)].Some? && t[Slot(|t|, key, q)].value.key != key
  }

  /** Every published node's path is taken from its home slot up to the node. */
  ghost predicate PathsTaken(t: Table)
    requires |t| > 0
  {
    forall j: nat | j < |t| && t[j].Some? :: PathTaken(t, t[j].value.key, ProbeOf(|t|, t[j].value.key, j))
  }

  ghost predicate Holds(t: Table, key: nat) {
    exists j: nat | j < |t| :: t[j].Some? && t[j].value.key == key
  }

  ghost predicate Full(t: Table) {
    forall j: nat | j < |t| :: t[j].Some?
  }

  lemma {:induction false} FindSkips(t: Table, key: nat, probe: nat)
    requires |t| > 0 && probe <= |t| && PathMisses(t, key, probe)
    ensures Find(t, key, 0) == Find(t, key, probe)
  {
    if probe > 0 {
      FindSkips(t, key, probe - 1);
    }
  }

  lemma {:induction false} FindNowhere(t: Table, key: nat, probe: nat)
    requires |t| > 0 && !Holds(t, key)
    ensures Find(t, key, probe) == None
    decreases |t| - probe
  {
    if probe < |t| {
      FindNowhere(t, key, probe + 1);
    }
  }

  /** Where a scan stops: at the key, at an empty slot, or at the end of a table full of other keys. */
  lemma {:induction false} ScanStop(t: Table, key: nat, from: nat) returns (p: nat)
    requires |t| > 0 && from <= |t| && PathMisses(t, key, from)
    ensures from <= p <= |t| && PathMisses(t, key, p)
    ensures p < |t| ==> t[Slot(|t|, key, p)].None? || t[Slot(|t|, key, p)].value.key == key
    decreases |t| - from
  {
    if from < |t| && t[Slot(|t|, key, from)].Some? && t[Slot(|t|, key, from)].value.key != key {
      p := ScanStop(t, key, from + 1);
    } else {
      p := from;
    }
  }

  /** With paths taken, a scan that comes back empty means the key is nowhere in the table. */
  lemma FindIsMembership(t: Table, key: nat)
    requires |t| > 0 && PathsTaken(t)
    ensures Find(t, key, 0).Some? <==> Holds(t, key)
  {
    var p := ScanStop(t, key, 0);
    FindSkips(t, key, p);
    if Find(t, key, 0) == None {
      forall j: nat | j < |t| && t[j].Some?
        ensures t[j].value.key != key
      {
        SlotOfProbe(|t|, key, j);
        assert PathTaken(t, t[j].value.key, ProbeOf(|t|, t[j].value.key, j));
      }
    } else {
      assert t[Slot(|t|, key, p)].value.key == key;
    }
  }

  /** Every key finds in t' what it found in t, but for a node whose key t did not hold. */
  ghost predicate FirstWins(t: Table, t': Table, node: Node)
    requires |t| > 0 && |t'| > 0
  {
    forall key: nat ::
      Find(t', key, 0) == if key == node.key && Find(t, key, 0).None? then Some(node.payload) else Find(t, key, 0)
  }

  /** Publishing at the end of a taken path: the first insert of a key wins and nothing else changes. */
  lemma PublishFirstWins(t: Table, node: Node, probe: nat)
    requires |t| > 0 && PathsTaken(t) && probe < |t| && PathTaken(t, node.key, probe)
    requires t[Slot(|t|, node.key, probe)].None?
    ensures PathsTaken(t[Slot(|t|, node.key, probe) := Some(node)])
    ensures FirstWins(t, t[Slot(|t|, node.key, probe) := Some(node)], node)
  {
    var t' := t[Slot(|t|, node.key, probe) := Some(node)];
    ProbeOfSlot(|t|, node.key, probe);
    assert PathsTaken(t') by {
      forall j: nat | j < |t'| && t'[j].Some?
        ensures PathTaken(t', t'[j].value.key, ProbeOf(|t'|, t'[j].value.key, j))
      {
      }
    }
    forall key: nat
      ensures Find(t', key, 0) == if key == node.key && Find(t, key, 0).None? then Some(node.payload) else Find(t, key, 0)
    {
      PublishForKey(t, node, probe, key);
    }
  }

  lemma PublishForKey(t: Table, node: Node, probe: nat, key: nat)
    requires |t| > 0 && PathsTaken(t) && probe < |t| && PathTaken(t, node.key, probe)
    requires t[Slot(|t|, node.key, probe)].None?
    ensures Find(t[Slot(|t|, node.key, probe) := Some(node)], key, 0)
         == if key == node.key && Find(t, key, 0).None? then Some(node.payload) else Find(t, key, 0)
  {
    var i := Slot(|t|, node.key, probe);
    var t' := t[i := Some(node)];
    FindIsMembership(t, key);
    if Find(t, key, 0).Some? {
      var p := ScanStop(t, key, 0);
      FindSkips(t, key, p);
      assert PathMisses(t', key, p);
      FindSkips(t', key, p);
    } else if key == node.key {
      assert PathMisses(t', key, probe) by {
        forall q: nat | q < probe
          ensures t'[Slot(|t|, key, q)].Some? && t'[Slot(|t|, key, q)].value.key != key
        {
          assert t[Slot(|t|, key, q)].Some?;
        }
      }
      FindSkips(t', key, probe);
    } else {
      assert !Holds(t', key);
      FindNowhere(t', key, 0);
    }
  }

  lemma PathOfAllSlotsIsFull(t: Table, key: nat)
    requires |t| > 0 && PathTaken(t, key, |t|)
    ensures Full(t)
  {
    forall j: nat | j < |t|
      ensures t[j].Some?
    {
      SlotOfProbe(|t|, key, j);
    }
  }

  // ----- the two loops alone ---------------------------------------------------------------

  class Registry {
    var slots: array<Option<Node>>

    ghost predicate Valid()
      reads this, slots
    {
      slots.Length > 0 && PathsTaken(slots[..])
    }

    constructor (size: nat)
      requires size > 0
      ensures Valid() && fresh(slots) && slots.Length == size
      ensures forall key: nat :: Find(slots[..], key, 0) == None
    {
      slots := new Option<Node>[size](_ => None);
      new;
      forall key: nat
        ensures Find(slots[..], key, 0) == None
      {
        FindNowhere(slots[..], key, 0);
      }
    }

    /** `table_insert`; `panicked` is its "probe table full". A key already there is not looked for. */
    method TableInsert(key: nat, payload: nat) returns (panicked: bool)
      requires Valid()
      modifies slots
      ensures Valid()
      ensures panicked <==> Full(old(slots[..]))
      ensures panicked ==> slots[..] == old(slots[..])
      ensures !panicked ==> FirstWins(old(slots[..]), slots[..], Node(key, payload))
    {
      var size := slots.Length;
      var idx := key % size;
      SlotWraps(size, key, 0);
      for probe := 0 to size
        invariant idx == Slot(size, key, probe)
        invariant slots[..] == old(slots[..])
        invariant PathTaken(slots[..], key, probe)
      {
        if slots[idx].None? {
          PublishFirstWins(slots[..], Node(key, payload), probe);
          slots[idx] := Some(Node(key, payload));
          return false;
        }
        assert slots[..][idx].Some?;
        SlotFollows(size, key, probe);
        idx := Following(size, idx);
      }
      PathOfAllSlotsIsFull(slots[..], key);
      return true;
    }

    /** `table_lookup`. */
    method TableLookup(key: nat) returns (answer: nat)
      requires Valid()
      ensures answer == Answer(Find(slots[..], key, 0))
    {
      var size := slots.Length;
      var idx := key % size;
      SlotWraps(size, key, 0);
      for probe := 0 to size
        invariant idx == Slot(size, key, probe)
        invariant PathMisses(slots[..], key, probe)
      {
        FindSkips(slots[..], key, probe);
        match slots[idx]
        case None => return ABSENT;
        case Some(node) =>
          if node.key == key {
            return node.payload;
          }
        assert slots[..][idx].Some?;
        SlotFollows(size, key, probe);
        idx := Following(size, idx);
      }
      FindSkips(slots[..], key, size);
      return ABSENT;
    }
  }

  // ----- any number of inserters and lookers -----------------------------------------------

  datatype Process =
    | Loading(node: Node, idx: nat, probes: nat)
    | Exchanging(node: Node, idx: nat, probes: nat)
    | Inserted(node: Node)
    | Panicked(node: Node)
    | Looking(key: nat, idx: nat, probes: nat)
    | Answered(key: nat, answer: nat)

  /** The table, everyone who ever called, and the nodes in the order they were published. */
  datatype State = State(table: Table, processes: seq<Process>, published: seq<Node>)

  datatype Action = CallInsert(node: Node) | CallLookup(key: nat) | Turn(process: nat)

  function Initial(size: nat): State {
    State(seq(size, _ => None), [], [])
  }

  function Advance(size: nat, p: Process): Process
    requires size > 0 && (p.Loading? || p.Exchanging? || p.Looking?)
  {
    match p
    case Loading(node, idx, probes) => Loading(node, Following(size, idx), probes + 1)
    case Exchanging(node, idx, probes) => Loading(node, Following(size, idx), probes + 1)
    case Looking(key, idx, probes) => Looking(key, Following(size, idx), probes + 1)
  }

  /** One atomic step of one process: a load, a compare-exchange, or the end of its loop. */
  function Moved(t: Table, p: Process): Process
    requires |t| > 0
    requires p.Loading? || p.Exchanging? || p.Looking? ==> p.idx < |t|
  {
    match p
    case Loading(node, idx, probes) =>
      if probes >= |t| then Panicked(node)
      else if t[idx].None? then Exchanging(node, idx, probes)
      else Advance(|t|, p)
    case Exchanging(node, idx, probes) =>
      if t[idx].None? then Inserted(node) else Advance(|t|, p)
    case Looking(key, idx, probes) =>
      if probes >= |t| then Answered(key, ABSENT)
      else if t[idx].None? then Answered(key, ABSENT)
      else if t[idx].value.key == key then Answered(key, t[idx].value.payload)
      else Advance(|t|, p)
    case _ => p
  }

  predicate Publishes(t: Table, p: Process)
    requires p.Exchanging? ==> p.idx < |t|
  {
    p.Exchanging? && t[p.idx].None?
  }

  predicate WellFormed(s: State) {
    && |s.table| > 0
    && forall i: nat | i < |s.processes| :: InTable(s.table, s.processes[i])
  }

  predicate InTable(t: Table, p: Process) {
    p.Loading? || p.Exchanging? || p.Looking? ==> p.idx < |t|
  }

  function Step(s: State, a: Action): (s': State)
    requires WellFormed(s)
  {
    match a
    case CallInsert(node) => s.(processes := s.processes + [Loading(node, node.key % |s.table|, 0)])
    case CallLookup(key) => s.(processes := s.processes + [Looking(key, key % |s.table|, 0)])
    case Turn(i) =>
      if i >= |s.processes| then s
      else
        var p := s.processes[i];
        var s1 := s.(processes := s.processes[i := Moved(s.table, p)]);
        if Publishes(s.table, p) then s1.(table := s.table[p.idx := Some(p.node)], published := s.published + [p.node])
        else s1
  }

  // ----- what every interleaving keeps -----------------------------------------------------

  ghost predicate ProcessInv(t: Table, p: Process)
    requires |t| > 0
  {
    match p
    case Loading(node, idx, probes) =>
      probes <= |t| && idx == Slot(|t|, node.key, probes) && PathTaken(t, node.key, probes)
    case Exchanging(node, idx, probes) =>
      probes < |t| && idx == Slot(|t|, node.key, probes) && PathTaken(t, node.key, probes)
    case Looking(key, idx, probes) =>
      probes <= |t| && idx == Slot(|t|, key, probes) && PathMisses(t, key, probes)
    case Panicked(_) => Full(t)
    case _ => true
  }

  /** The first payload published for a key: the write-once map the registry is meant to be. */
  function First(published: seq<Node>, key: nat): Option<nat> {
    if published == [] then None
    else
      match First(published[..|published| - 1], key)
      case Some(payload) => Some(payload)
      case None => if published[|published| - 1].key == key then Some(published[|published| - 1].payload) else None
  }

  ghost predicate Inv(s: State) {
    && |s.table| > 0
    && PathsTaken(s.table)
    && (forall i: nat | i < |s.processes| :: ProcessInv(s.table, s.processes[i]))
    && (forall key: nat :: Find(s.table, key, 0) == First(s.published, key))
  }

  lemma InvIsWellFormed(s: State)
    requires Inv(s)
    ensures WellFormed(s)
  {
    forall i: nat | i < |s.processes|
      ensures InTable(s.table, s.processes[i])
    {
      assert ProcessInv(s.table, s.processes[i]);
    }
  }

  lemma PublishKeepsProcess(t: Table, j: nat, node: Node, p: Process)
    requires |t| > 0 && j < |t| && t[j].None? && ProcessInv(t, p)
    ensures ProcessInv(t[j := Some(node)], p)
  {
  }

  lemma MoveKeepsProcess(t: Table, p: Process)
    requires |t| > 0 && ProcessInv(t, p) && InTable(t, p)
    ensures ProcessInv(t, Moved(t, p))
  {
    match p
    case Loading(node, idx, probes) =>
      if probes >= |t| {
        PathOfAllSlotsIsFull(t, node.key);
      } else {
        SlotFollows(|t|, node.key, probes);
      }
    case Exchanging(node, idx, probes) => SlotFollows(|t|, node.key, probes);
    case Looking(key, idx, probes) =>
      if probes < |t| {
        SlotFollows(|t|, key, probes);
      }
    case _ =>
  }

  lemma PublishKeepsFirst(t: Table, published: seq<Node>, node: Node, probe: nat)
    requires |t| > 0 && PathsTaken(t) && probe < |t| && PathTaken(t, node.key, probe)
    requires t[Slot(|t|, node.key, probe)].None?
    requires forall key: nat :: Find(t, key, 0) == First(published, key)
    ensures PathsTaken(t[Slot(|t|, node.key, probe) := Some(node)])
    ensures forall key: nat :: Find(t[Slot(|t|, node.key, probe) := Some(node)], key, 0) == First(published + [node], key)
  {
    PublishFirstWins(t, node, probe);
    forall key: nat
      ensures Find(t[Slot(|t|, node.key, probe) := Some(node)], key, 0) == First(published + [node], key)
    {
      assert (published + [node])[..|published|] == published;
    }
  }

  lemma StepInv(s: State, a: Action)
    requires Inv(s) && WellFormed(s)
    ensures Inv(Step(s, a)) && |Step(s, a).table| == |s.table|
  {
    match a
    case CallInsert(node) => SlotWraps(|s.table|, node.key, 0);
    case CallLookup(key) => SlotWraps(|s.table|, key, 0);
    case Turn(i) =>
      if i < |s.processes| {
        var p := s.processes[i];
        assert ProcessInv(s.table, p);
        MoveKeepsProcess(s.table, p);
        if Publishes(s.table, p) {
          PublishKeepsFirst(s.table, s.published, p.node, p.probes);
          forall k: nat | k < |s.processes|
            ensures ProcessInv(Step(s, a).table, Step(s, a).processes[k])
          {
            if k != i {
              PublishKeepsProcess(s.table, p.idx, p.node, s.processes[k]);
            }
          }
        }
      }
  }

  /** The state after the actions of `schedule`, whatever they are. */
  ghost function Run(size: nat, schedule: seq<Action>): (s: State)
    requires size > 0
    ensures Inv(s) && WellFormed(s) && |s.table| == size
  {
    if schedule == [] then
      var s := Initial(size);
      assert forall key: nat :: Find(s.table, key, 0) == None by {
        forall key: nat
          ensures Find(s.table, key, 0) == None
        {
          FindNowhere(s.table, key, 0);
        }
      }
      s
    else
      var s := Run(size, schedule[..|schedule| - 1]);
      StepInv(s, schedule[|schedule| - 1]);
      InvIsWellFormed(Step(s, schedule[|schedule| - 1]));
      Step(s, schedule[|schedule| - 1])
  }

  // ----- linearizability -------------------------------------------------------------------

  /**
   The step in which a lookup answers is the step at which the simple map would give that answer,
   and an insert that panics does so over a full table.
   */
  lemma AnswerIsCurrent(s: State, i: nat)
    requires Inv(s) && WellFormed(s) && i < |s.processes|
    ensures var p' := Step(s, Turn(i)).processes[i];
            && (s.processes[i].Looking? && p'.Answered? ==>
                  p'.key == s.processes[i].key && p'.answer == Answer(Find(s.table, p'.key, 0)))
            && (p'.Panicked? ==> Full(s.table))
  {
    var p := s.processes[i];
    assert ProcessInv(s.table, p);
    MoveKeepsProcess(s.table, p);
    if p.Looking? {
      FindSkips(s.table, p.key, p.probes);
    }
  }

  /** First insert wins: what the map holds for a key never changes again. */
  lemma {:induction false} AnswersNeverChange(size: nat, schedule: seq<Action>, later: seq<Action>, key: nat)
    requires size > 0 && Find(Run(size, schedule).table, key, 0).Some?
    ensures Find(Run(size, schedule + later).table, key, 0) == Find(Run(size, schedule).table, key, 0)
  {
    if later == [] {
      assert schedule + later == schedule;
    } else {
      var before := later[..|later| - 1];
      AnswersNeverChange(size, schedule, before, key);
      assert (schedule + later)[..|schedule + later| - 1] == schedule + before;
      var s := Run(size, schedule + before);
      var s' := Run(size, schedule + later);
      assert s' == Step(s, later[|later| - 1]);
      if s'.published != s.published {
        assert s'.published[..|s'.published| - 1] == s.published;
      }
      assert Find(s.table, key, 0) == First(s.published, key);
      assert Find(s'.table, key, 0) == First(s'.published, key);
    }
  }

  /** Process i had been called by then and had not yet answered. */
  ghost predicate IsLooking(s: State, i: nat, key: nat) {
    i < |s.processes| && s.processes[i].Looking? && s.processes[i].key == key
  }

  /**
   Every lookup linearizes: at some moment after its call and before its answer, the write-once map
   of what had been published by then gave exactly the answer it returned.
   */
  lemma {:induction false} LookupsLinearize(size: nat, schedule: seq<Action>, i: nat) returns (moment: nat)
    requires size > 0 && i < |Run(size, schedule).processes| && Run(size, schedule).processes[i].Answered?
    ensures var p := Run(size, schedule).processes[i];
            && moment < |schedule|
            && IsLooking(Run(size, schedule[..moment]), i, p.key)
            && p.answer == Answer(First(Run(size, schedule[..moment]).published, p.key))
  {
    var last := |schedule| - 1;
    var s := Run(size, schedule[..last]);
    var a := schedule[last];
    if i < |s.processes| && s.processes[i].Answered? {
      moment := LookupsLinearize(size, schedule[..last], i);
      assert schedule[..last][..moment] == schedule[..moment];
    } else {
      moment := last;
      assert a == Turn(i);
      AnswerIsCurrent(s, i);
    }
  }

  // ----- the map it replaced ---------------------------------------------------------------

  /** `HashMap::insert` keeps the last payload of a key. */
  function Last(published: seq<Node>, key: nat): Option<nat> {
    if published == [] then None
    else if published[|published| - 1].key == key then Some(published[|published| - 1].payload)
    else Last(published[..|published| - 1], key)
  }

  /** No key is published again with a payload other than its first. */
  ghost predicate NoKeyRevalued(published: seq<Node>) {
    forall i: nat, j: nat | i < j < |published| && published[i].key == published[j].key ::
      published[i].payload == published[j].payload
  }

  lemma {:induction false} FirstIsPublished(published: seq<Node>, key: nat)
    ensures First(published, key).None? <==> forall i: nat | i < |published| :: published[i].key != key
    ensures First(published, key).Some? ==>
              exists i: nat | i < |published| :: published[i] == Node(key, First(published, key).value)
  {
    if published != [] {
      var before := published[..|published| - 1];
      FirstIsPublished(before, key);
      if First(before, key).Some? {
        var i: nat :| i < |before| && before[i] == Node(key, First(before, key).value);
        assert published[i] == Node(key, First(before, key).value);
      } else {
        assert forall i: nat | i < |before| :: published[i] == before[i];
      }
    }
  }

  ghost predicate Agrees(published: seq<Node>) {
    forall key: nat :: First(published, key) == Last(published, key)
  }

  ghost predicate AgreesThroughout(published: seq<Node>) {
    forall n: nat | n <= |published| :: Agrees(published[..n])
  }

  /** Adding a node keeps the two maps alike exactly when it brings its key no new payload. */
  lemma AgreesAfter(before: seq<Node>, node: Node)
    requires Agrees(before) && NoKeyRevalued(before)
    ensures Agrees(before + [node]) <==>
            forall i: nat | i < |before| && before[i].key == node.key :: before[i].payload == node.payload
  {
    var after := before + [node];
    assert after[..|before|] == before;
    FirstIsPublished(before, node.key);
    assert First(after, node.key) == Last(after, node.key) <==> First(before, node.key) in {None, Some(node.payload)};
    forall key: nat | key != node.key
      ensures First(after, key) == Last(after, key)
    {
      assert First(before, key) == Last(before, key);
    }
    if First(before, node.key).Some? {
      var k: nat :| k < |before| && before[k] == Node(node.key, First(before, node.key).value);
      assert forall i: nat | i < |before| && before[i].key == node.key :: before[i].payload == before[k].payload;
    }
  }

  /**
   First-wins and last-wins maps of the same nodes agree, at every moment of filling them, exactly
   when no key is given a second payload.
   */
  lemma {:induction false} AgreesWithMapIff(published: seq<Node>)
    ensures AgreesThroughout(published) <==> NoKeyRevalued(published)
  {
    if published == [] {
      assert published[..0] == published;
    } else {
      var m := |published| - 1;
      var before, node := published[..m], published[m];
      assert published == before + [node] && published[..|published|] == published;
      AgreesWithMapIff(before);
      assert forall n: nat | n <= m :: before[..n] == published[..n];
      if NoKeyRevalued(before) {
        assert Agrees(before[..m]) && before[..m] == before;
        AgreesAfter(before, node);
      }
    }
  }

  /** At moment t every key finds what a hash map of the nodes published by then holds for it. */
  ghost predicate AnswersLikeMap(size: nat, schedule: seq<Action>, t: nat)
    requires size > 0 && t <= |schedule|
  {
    var s := Run(size, schedule[..t]);
    forall key: nat :: Find(s.table, key, 0) == Last(s.published, key)
  }

  lemma AnswersLikeMapIff(size: nat, schedule: seq<Action>, t: nat)
    requires size > 0 && t <= |schedule|
    ensures AnswersLikeMap(size, schedule, t) <==> Agrees(Run(size, schedule[..t]).published)
  {
    var s := Run(size, schedule[..t]);
    assert forall key: nat :: Find(s.table, key, 0) == First(s.published, key);
  }

  lemma {:induction false} PublishedGrows(size: nat, schedule: seq<Action>, t: nat)
    requires size > 0 && t <= |schedule|
    ensures Run(size, schedule[..t]).published <= Run(size, schedule).published
  {
    var m := |schedule| - 1;
    if t == |schedule| {
      assert schedule[..t] == schedule;
    } else {
      PublishedGrows(size, schedule[..m], t);
      assert schedule[..m][..t] == schedule[..t];
    }
  }

  /** Nodes are published one at a time, so each prefix of them was all there was at some moment. */
  lemma {:induction false} PrefixPublished(size: nat, schedule: seq<Action>, n: nat) returns (t: nat)
    requires size > 0 && n <= |Run(size, schedule).published|
    ensures t <= |schedule| && Run(size, schedule[..t]).published == Run(size, schedule).published[..n]
  {
    var m := |schedule| - 1;
    if n == |Run(size, schedule).published| {
      t := |schedule|;
      assert schedule[..t] == schedule;
    } else {
      var before := Run(size, schedule[..m]).published;
      assert before <= Run(size, schedule).published && n <= |before|;
      t := PrefixPublished(size, schedule[..m], n);
      assert schedule[..m][..t] == schedule[..t];
    }
  }

  ghost predicate AlwaysLikeMap(size: nat, schedule: seq<Action>)
    requires size > 0
  {
    forall t: nat | t <= |schedule| :: AnswersLikeMap(size, schedule, t)
  }

  lemma LikeMapIfAgreeing(size: nat, schedule: seq<Action>)
    requires size > 0 && AgreesThroughout(Run(size, schedule).published)
    ensures AlwaysLikeMap(size, schedule)
  {
    forall t: nat | t <= |schedule|
      ensures AnswersLikeMap(size, schedule, t)
    {
      PublishedGrows(size, schedule, t);
      var published, before := Run(size, schedule).published, Run(size, schedule[..t]).published;
      assert Agrees(published[..|before|]) && published[..|before|] == before;
      AnswersLikeMapIff(size, schedule, t);
    }
  }

  lemma AgreeingIfLikeMap(size: nat, schedule: seq<Action>)
    requires size > 0 && AlwaysLikeMap(size, schedule)
    ensures AgreesThroughout(Run(size, schedule).published)
  {
    forall n: nat | n <= |Run(size, schedule).published|
      ensures Agrees(Run(size, schedule).published[..n])
    {
      var t := PrefixPublished(size, schedule, n);
      assert AnswersLikeMap(size, schedule, t);
      AnswersLikeMapIff(size, schedule, t);
    }
  }

  /** The registry itself, in any run: it answers like the hash map at every moment exactly when no key is revalued. */
  lemma RegistryIsMapIff(size: nat, schedule: seq<Action>)
    requires size > 0
    ensures AlwaysLikeMap(size, schedule) <==> NoKeyRevalued(Run(size, schedule).published)
  {
    AgreesWithMapIff(Run(size, schedule).published);
    if AlwaysLikeMap(size, schedule) {
      AgreeingIfLikeMap(size, schedule);
    } else if AgreesThroughout(Run(size, schedule).published) {
      LikeMapIfAgreeing(size, schedule);
    }
  }

  /** Two inserts of one key with different payloads, one after the other, and then a lookup of it. */
  function Revaluing(t: nat): seq<Action>
    requires t <= 9
  {
    [CallInsert(Node(0, 1)), Turn(0), Turn(0), CallInsert(Node(0, 2)), Turn(1), Turn(1), Turn(1), CallLookup(0), Turn(2)][..t]
  }

  /** The states it goes through. */
  function Revalued(size: nat, t: nat): State
    requires size >= 2 && t <= 9
  {
    var empty := Initial(size).table;
    var one := empty[0 := Some(Node(0, 1))];
    var both := one[1 := Some(Node(0, 2))];
    if t == 0 then State(empty, [], [])
    else if t == 1 then State(empty, [Loading(Node(0, 1), 0, 0)], [])
    else if t == 2 then State(empty, [Exchanging(Node(0, 1), 0, 0)], [])
    else if t == 3 then State(one, [Inserted(Node(0, 1))], [Node(0, 1)])
    else if t == 4 then State(one, [Inserted(Node(0, 1)), Loading(Node(0, 2), 0, 0)], [Node(0, 1)])
    else if t == 5 then State(one, [Inserted(Node(0, 1)), Loading(Node(0, 2), 1, 1)], [Node(0, 1)])
    else if t == 6 then State(one, [Inserted(Node(0, 1)), Exchanging(Node(0, 2), 1, 1)], [Node(0, 1)])
    else if t == 7 then State(both, [Inserted(Node(0, 1)), Inserted(Node(0, 2))], [Node(0, 1), Node(0, 2)])
    else if t == 8 then State(both, [Inserted(Node(0, 1)), Inserted(Node(0, 2)), Looking(0, 0, 0)], [Node(0, 1), Node(0, 2)])
    else State(both, [Inserted(Node(0, 1)), Inserted(Node(0, 2)), Answered(0, 1)], [Node(0, 1), Node(0, 2)])
  }

  lemma FirstSlots(size: nat)
    requires size >= 2
    ensures 0 % size == 0 && Following(size, 0) == 1
  {
  }

  lemma RevaluesFirst(size: nat, t: nat)
    requires size >= 2 && t < 3
    ensures WellFormed(Revalued(size, t)) && Step(Revalued(size, t), Revaluing(9)[t]) == Revalued(size, t + 1)
  {
    FirstSlots(size);
  }

  lemma RevaluesSecond(size: nat, t: nat)
    requires size >= 2 && 3 <= t < 7
    ensures WellFormed(Revalued(size, t)) && Step(Revalued(size, t), Revaluing(9)[t]) == Revalued(size, t + 1)
  {
    FirstSlots(size);
  }

  lemma RevaluesLooked(size: nat, t: nat)
    requires size >= 2 && 7 <= t < 9
    ensures WellFormed(Revalued(size, t)) && Step(Revalued(size, t), Revaluing(9)[t]) == Revalued(size, t + 1)
  {
    FirstSlots(size);
  }

  lemma {:induction false} RevaluedIsReached(size: nat, t: nat)
    requires size >= 2 && t <= 9
    ensures Run(size, Revaluing(t)) == Revalued(size, t)
  {
    if t == 0 {
      assert Revaluing(0) == [];
    } else {
      RevaluedIsReached(size, t - 1);
      assert Revaluing(t)[..t - 1] == Revaluing(t - 1);
      if t <= 3 {
        RevaluesFirst(size, t - 1);
      } else if t <= 7 {
        RevaluesSecond(size, t - 1);
      } else {
        RevaluesLooked(size, t - 1);
      }
    }
  }

  /** A run of two inserts of one key after which the registry answers the first payload, where the map holds the second. */
  lemma RevaluedKeyDiffers(size: nat)
    requires size >= 2
    ensures var s := Run(size, Revaluing(9));
            && |s.processes| == 3 && s.processes[2] == Answered(0, 1)
            && Find(s.table, 0, 0) == Some(1) && Last(s.published, 0) == Some(2)
  {
    RevaluedIsReached(size, 9);
    FirstSlots(size);
  }

  // ----- inserts ---------------------------------------------------------------------------

  /** What a process brought in. */
  function Brought(p: Process): multiset<Node> {
    if p.Inserted? then multiset{p.node} else multiset{}
  }

  function BroughtBy(processes: seq<Process>): (parts: seq<multiset<Node>>)
    ensures |parts| == |processes|
  {
    seq(|processes|, i requires 0 <= i < |processes| => Brought(processes[i]))
  }

  function Sum(parts: seq<multiset<Node>>): multiset<Node> {
    if parts == [] then multiset{} else Sum(parts[..|parts| - 1]) + parts[|parts| - 1]
  }

  /** The nodes of the inserts that got in. */
  function InsertedNodes(processes: seq<Process>): multiset<Node> {
    Sum(BroughtBy(processes))
  }

  lemma {:induction false} SumUpdate(parts: seq<multiset<Node>>, i: nat, part: multiset<Node>)
    requires i < |parts| && parts[i] == multiset{}
    ensures Sum(parts[i := part]) == Sum(parts) + part
  {
    var m, front := |parts| - 1, parts[..|parts| - 1];
    if i == m {
      assert parts[i := part][..m] == front;
    } else {
      SumUpdate(front, i, part);
      assert parts[i := part][..m] == front[i := part];
      SumsCommute(Sum(front), part, parts[m]);
    }
  }

  lemma SumsCommute(a: multiset<Node>, b: multiset<Node>, c: multiset<Node>)
    ensures (a + b) + c == (a + c) + b
  {
  }

  lemma {:induction false} SumHas(parts: seq<multiset<Node>>, i: nat, node: Node)
    requires i < |parts| && node in parts[i]
    ensures node in Sum(parts)
  {
    if i < |parts| - 1 {
      SumHas(parts[..|parts| - 1], i, node);
    }
  }

  lemma InsertedUpdate(processes: seq<Process>, i: nat, p: Process)
    requires i < |processes| && !processes[i].Inserted?
    ensures InsertedNodes(processes[i := p]) == InsertedNodes(processes) + Brought(p)
  {
    assert BroughtBy(processes[i := p]) == BroughtBy(processes)[i := Brought(p)];
    SumUpdate(BroughtBy(processes), i, Brought(p));
  }

  lemma InsertedAppend(processes: seq<Process>, p: Process)
    ensures InsertedNodes(processes + [p]) == InsertedNodes(processes) + Brought(p)
  {
    var parts := BroughtBy(processes);
    assert BroughtBy(processes + [p]) == parts + [Brought(p)];
    assert (parts + [Brought(p)])[..|parts|] == parts;
  }

  lemma TurnPublishes(s: State, i: nat)
    requires WellFormed(s) && i < |s.processes| && !s.processes[i].Inserted?
    ensures Moved(s.table, s.processes[i]).Inserted? <==> Publishes(s.table, s.processes[i])
    ensures Moved(s.table, s.processes[i]).Inserted? ==> Moved(s.table, s.processes[i]).node == s.processes[i].node
  {
  }

  lemma StepPublishes(s: State, a: Action)
    requires WellFormed(s) && multiset(s.published) == InsertedNodes(s.processes)
    ensures multiset(Step(s, a).published) == InsertedNodes(Step(s, a).processes)
  {
    match a
    case CallInsert(node) => InsertedAppend(s.processes, Loading(node, node.key % |s.table|, 0));
    case CallLookup(key) => InsertedAppend(s.processes, Looking(key, key % |s.table|, 0));
    case Turn(i) => if i < |s.processes| { TurnKeepsPublished(s, i); }
  }

  lemma TurnKeepsPublished(s: State, i: nat)
    requires WellFormed(s) && multiset(s.published) == InsertedNodes(s.processes) && i < |s.processes|
    ensures multiset(Step(s, Turn(i)).published) == InsertedNodes(Step(s, Turn(i)).processes)
  {
    if s.processes[i].Inserted? {
      assert Step(s, Turn(i)).processes == s.processes;
    } else {
      TurnPublishes(s, i);
      InsertedUpdate(s.processes, i, Moved(s.table, s.processes[i]));
    }
  }

  /** What has been published is what the inserts that returned brought, each once. */
  lemma {:induction false} PublishedAreInserted(size: nat, schedule: seq<Action>)
    requires size > 0
    ensures multiset(Run(size, schedule).published) == InsertedNodes(Run(size, schedule).processes)
  {
    if schedule != [] {
      PublishedAreInserted(size, schedule[..|schedule| - 1]);
      StepPublishes(Run(size, schedule[..|schedule| - 1]), schedule[|schedule| - 1]);
    }
  }

  /** Insert i is put in by its own exchange, in the step after the first `moment` ones. */
  ghost predicate GetsInAt(size: nat, schedule: seq<Action>, i: nat, node: Node, moment: nat)
    requires size > 0
  {
    && moment < |schedule| && schedule[moment] == Turn(i)
    && GetsInFrom(Run(size, schedule[..moment]), Run(size, schedule[..moment + 1]), i, node)
  }

  predicate GetsInFrom(s: State, s': State, i: nat, node: Node) {
    i < |s.processes| && s.processes[i].Exchanging? && s.processes[i].node == node && s'.published == s.published + [node]
  }

  lemma GetsIn(s: State, a: Action, i: nat)
    requires WellFormed(s) && i < |Step(s, a).processes| && Step(s, a).processes[i].Inserted?
    ensures i < |s.processes|
    ensures !s.processes[i].Inserted? ==> a == Turn(i) && GetsInFrom(s, Step(s, a), i, Step(s, a).processes[i].node)
    ensures s.processes[i].Inserted? ==> Step(s, a).processes[i] == s.processes[i]
  {
  }

  lemma GetsInEarlier(size: nat, schedule: seq<Action>, i: nat, node: Node, moment: nat)
    requires size > 0 && schedule != [] && GetsInAt(size, schedule[..|schedule| - 1], i, node, moment)
    ensures GetsInAt(size, schedule, i, node, moment)
  {
    var before := schedule[..|schedule| - 1];
    assert before[..moment] == schedule[..moment] && before[..moment + 1] == schedule[..moment + 1];
  }

  /**
   Every insert that returns linearizes: at one moment after its call and before its return, its own
   exchange appends its node to what has been published.
   */
  lemma {:induction false} InsertsLinearize(size: nat, schedule: seq<Action>, i: nat) returns (moment: nat)
    requires size > 0 && i < |Run(size, schedule).processes| && Run(size, schedule).processes[i].Inserted?
    ensures GetsInAt(size, schedule, i, Run(size, schedule).processes[i].node, moment)
  {
    var last := |schedule| - 1;
    var s := Run(size, schedule[..last]);
    GetsIn(s, schedule[last], i);
    if s.processes[i].Inserted? {
      moment := InsertsLinearize(size, schedule[..last], i);
      GetsInEarlier(size, schedule, i, s.processes[i].node, moment);
    } else {
      moment := last;
      assert schedule[..last + 1] == schedule;
    }
  }

  /** Its key is found from then on. */
  lemma InsertedIsFound(size: nat, schedule: seq<Action>, later: seq<Action>, i: nat)
    requires size > 0 && i < |Run(size, schedule).processes| && Run(size, schedule).processes[i].Inserted?
    ensures Find(Run(size, schedule + later).table, Run(size, schedule).processes[i].node.key, 0).Some?
  {
    var s := Run(size, schedule);
    var node := s.processes[i].node;
    PublishedAreInserted(size, schedule);
    SumHas(BroughtBy(s.processes), i, node);
    assert node in multiset(s.published);
    FirstIsPublished(s.published, node.key);
    assert Find(s.table, node.key, 0) == First(s.published, node.key);
    AnswersNeverChange(size, schedule, later, node.key);
  }
}
