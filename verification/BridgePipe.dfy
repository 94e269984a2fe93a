/**
 The request/reply pipe of benches/jax_bridge_transport.rs. A round trip writes one body and a
 newline and reads one line back from an echo child; nothing in the pipe says which request a
 reply belongs to.
 */
module BridgePipe {
  import opened Options
  import opened Text
  import opened Totals

  /** Lines written and not yet read by the child, lines echoed and not yet read back, and the child. */
  datatype Pipe = Pipe(requests: seq<string>, replies: seq<string>, alive: bool)

  function Written(p: Pipe, body: string): Pipe {
    p.(requests := p.requests + Lines(body))
  }

  /** The child echoes its next line. */
  function Echoed(p: Pipe): Pipe {
    if p.alive && p.requests != [] then p.(requests := p.requests[1..], replies := p.replies + [p.requests[0]]) else p
  }

  /** The child is gone, for good. What it had already echoed can still be read. */
  function Died(p: Pipe): Pipe {
    p.(alive := false)
  }

  /** Nothing is under way: no reply is waiting to be read and no request is still to be answered. */
  predicate InStep(p: Pipe) {
    p.replies == [] && (p.alive ==> p.requests == [])
  }

  /** One request, `body`, is under way: unread by the child, or echoed and unread by the caller. */
  predicate UnderWay(p: Pipe, body: string) {
    || (p.replies == [] && (p.alive ==> p.requests == [body]))
    || (p.replies == [body] && (p.alive ==> p.requests == []))
  }

  /** What has been written and not read back, in the order it will be. */
  function Unread(p: Pipe): seq<string> {
    p.replies + p.requests
  }

  datatype Outcome = Ok(line: string) | Refused | EndOfFile

  /** The ends of the pipe, as `Pipe::round_trip` uses them. */
  class Ends {
    var pipe: Pipe

    constructor ()
      ensures pipe == Pipe([], [], true)
    {
      pipe := Pipe([], [], true);
    }

    /** The child runs, and may die, until there is a line to read or the end of its output. */
    method AwaitChild()
      modifies this
      ensures pipe.replies != [] || !pipe.alive || old(pipe.requests) == []
      ensures pipe.alive ==> old(pipe.alive)
      ensures pipe.replies + pipe.requests == old(pipe.replies + pipe.requests)
      ensures !old(pipe.alive) ==> pipe == old(pipe)
      ensures old(pipe.replies) <= pipe.replies
    {
      while pipe.alive && pipe.requests != []
        invariant pipe.alive ==> old(pipe.alive)
        invariant pipe.replies + pipe.requests == old(pipe.replies + pipe.requests)
        invariant !old(pipe.alive) ==> pipe == old(pipe)
        invariant old(pipe.replies) <= pipe.replies
        invariant pipe.requests == [] && old(pipe.requests) != [] ==> pipe.replies != []
        decreases pipe.alive, |pipe.requests|
      {
        var dies, enough := *, *;
        if dies {
          pipe := Died(pipe);
        } else if enough && pipe.replies != [] {
          return;
        } else {
          pipe := Echoed(pipe);
        }
      }
    }

    /**
     `Pipe::round_trip`. It fails only once the child is gone, and from a pipe in step then always.
     What it reads back is the first line not read yet, be it the body's or owed to somebody before;
     and while the child lives the pipe is in step after it exactly when it was in step and the body
     has no newline in it.
     */
    method RoundTrip(body: string) returns (r: Outcome)
      modifies this
      ensures pipe.alive ==> old(pipe.alive)
      ensures r.Refused? ==> !pipe.alive && pipe == old(pipe)
      ensures r.EndOfFile? ==> !pipe.alive && pipe.replies == []
      ensures !old(pipe.alive) && InStep(old(pipe)) ==> !r.Ok?
      ensures r.Ok? ==>
                var lines := Unread(old(pipe)) + Lines(body);
                r.line == lines[0] + "\n" && Unread(pipe) == lines[1..]
      ensures InStep(old(pipe)) && r.Ok? ==> (r.line == body + "\n" <==> '\n' !in body)
      ensures InStep(old(pipe)) && '\n' !in body ==> InStep(pipe)
      ensures pipe.alive ==> (InStep(pipe) <==> InStep(old(pipe)) && '\n' !in body)
    {
      if !pipe.alive {
        var refused := *;
        if refused {
          return Refused;
        }
      }
      ghost var before := pipe;
      pipe := Written(pipe, body);
      assert Unread(pipe) == Unread(before) + Lines(body);
      AwaitChild();
      if pipe.replies == [] {
        return EndOfFile;
      }
      var line := pipe.replies[0] + "\n";
      ReadsFirst(before, pipe, body);
      pipe := pipe.(replies := pipe.replies[1..]);
      return Ok(line);
    }
  }

  /** The line read back and the pipe it is read from, which was `before` when the body was written. */
  lemma ReadsFirst(before: Pipe, p: Pipe, body: string)
    requires Unread(p) == Unread(before) + Lines(body) && p.replies != []
    requires (p.alive ==> before.alive) && (InStep(before) ==> before.alive)
    ensures var lines, after := Unread(before) + Lines(body), p.(replies := p.replies[1..]);
            && p.replies[0] == lines[0] && Unread(after) == lines[1..]
            && (InStep(before) ==> (p.replies[0] + "\n" == body + "\n" <==> '\n' !in body))
            && (InStep(before) && '\n' !in body ==> InStep(after))
            && (p.alive ==> (InStep(after) <==> InStep(before) && '\n' !in body))
  {
    OneLineIff(body);
    EndedLines(p.replies[0], body);
    var after := p.(replies := p.replies[1..]);
    assert p.replies[0] == Unread(p)[0] && Unread(after) == Unread(p)[1..];
    assert |Unread(after)| == |after.replies| + |after.requests|;
  }

  lemma EndedLines(a: string, b: string)
    ensures a + "\n" == b + "\n" <==> a == b
  {
    if a + "\n" == b + "\n" {
      assert (a + "\n")[..|a|] == a && (b + "\n")[..|b|] == b;
    }
  }

  /** Out of step, the next caller is given the rest of somebody else's reply. */
  lemma NewlineCrossesReplies(first: string, second: string)
    requires '\n' in first && '\n' !in second
    ensures |Lines(first)| > 1
    ensures var p := Written(Pipe([], [], true), first);
            var read := Echoed(p).(replies := []);
            var p' := Written(read, second);
            Echoed(p').replies == [Lines(first)[1]]
  {
    OneLineIff(first);
  }

  /** The body `fan_out` sends as caller c's call number i. */
  function EchoBody(c: nat, i: nat): string {
    "{\"op\":\"echo\",\"c\":" + Decimal(c) + ",\"i\":" + Decimal(i) + "}"
  }

  lemma EchoBodyIsOneLine(c: nat, i: nat)
    ensures '\n' !in EchoBody(c, i)
  {
    DigitsHaveNoNewline(Decimal(c));
    DigitsHaveNoNewline(Decimal(i));
    assert '\n' !in "{\"op\":\"echo\",\"c\":" && '\n' !in ",\"i\":" && '\n' !in "}";
  }

  /** A finished exchange: what was sent, and the line that came back unless it failed. */
  datatype Exchange = Exchange(body: string, reply: Option<string>)

  /**
   An exchange done in one piece: either it gives back the body it was sent, or it fails, and once
   one has failed they all do.
   */
  ghost predicate Atomic(log: seq<Exchange>) {
    && (forall i: nat | i < |log| && log[i].reply.Some? :: log[i].reply.value == log[i].body + "\n")
    && (forall i: nat, j: nat | i < j < |log| && log[i].reply.None? :: log[j].reply.None?)
  }

  // ----- any bodies: whose line is read back -----------------------------------------------

  /** The lines of bodies written one after another. */
  function LinesOf(bodies: seq<string>): (lines: seq<string>)
    ensures |lines| >= |bodies|
  {
    if bodies == [] then [] else LinesOf(bodies[..|bodies| - 1]) + Lines(bodies[|bodies| - 1])
  }

  lemma LinesOfOneMore(bodies: seq<string>, body: string)
    ensures LinesOf(bodies + [body]) == LinesOf(bodies) + Lines(body)
  {
    assert (bodies + [body])[..|bodies|] == bodies;
  }

  lemma {:induction false} LinesOfFirst(bodies: seq<string>, k: nat)
    requires k <= |bodies|
    ensures LinesOf(bodies[..k]) <= LinesOf(bodies)
  {
    if k < |bodies| {
      var n := |bodies| - 1;
      LinesOfFirst(bodies[..n], k);
      assert bodies[..n][..k] == bodies[..k];
    } else {
      assert bodies[..k] == bodies;
    }
  }

  predicate AllOneLine(bodies: seq<string>) {
    forall i: nat | i < |bodies| :: '\n' !in bodies[i]
  }

  lemma AllOneLineFront(bodies: seq<string>)
    requires bodies != []
    ensures var n := |bodies| - 1; AllOneLine(bodies) <==> AllOneLine(bodies[..n]) && '\n' !in bodies[n]
  {
  }

  /** Bodies are as many lines as there are of them exactly when each is one, and then they are the lines. */
  lemma {:induction false} LinesOfIff(bodies: seq<string>)
    ensures |LinesOf(bodies)| == |bodies| <==> AllOneLine(bodies)
    ensures AllOneLine(bodies) ==> LinesOf(bodies) == bodies
  {
    if bodies != [] {
      var n := |bodies| - 1;
      LinesOfIff(bodies[..n]);
      AllOneLineFront(bodies);
      OneLineIff(bodies[n]);
      if AllOneLine(bodies) {
        assert Lines(bodies[n]) == [bodies[n]];
        assert bodies == bodies[..n] + [bodies[n]];
      }
    }
  }

  /** The line read for one more body, when those before it were one line each. */
  lemma OwnLineIff(bodies: seq<string>, body: string)
    requires AllOneLine(bodies)
    ensures |LinesOf(bodies + [body])| > |bodies|
    ensures LinesOf(bodies + [body])[|bodies|] == body <==> '\n' !in body
  {
    LinesOfOneMore(bodies, body);
    LinesOfIff(bodies);
    OneLineIff(body);
  }

  lemma OwnLinesOneMore(front: seq<string>, last: string, lines: seq<string>, line: string)
    requires |lines| == |front| && (lines == front <==> AllOneLine(front))
    requires AllOneLine(front) ==> (line == last <==> '\n' !in last)
    ensures lines + [line] == front + [last] <==> AllOneLine(front + [last])
  {
    SameWithLast(lines, line, front, last);
    AllOneLineFront(front + [last]);
    assert (front + [last])[..|front|] == front;
  }

  /** Lines read one a body are the bodies themselves exactly when each body is one line. */
  lemma {:induction false} OwnLinesIff(bodies: seq<string>, lines: seq<string>)
    requires |lines| == |bodies| && lines <= LinesOf(bodies)
    ensures lines == bodies <==> AllOneLine(bodies)
  {
    if bodies != [] {
      var n := |bodies| - 1;
      assert bodies == bodies[..n] + [bodies[n]] && lines == lines[..n] + [lines[n]];
      OwnLinesIff(bodies[..n], lines[..n]);
      if AllOneLine(bodies[..n]) {
        OwnLineIff(bodies[..n], bodies[n]);
      }
      OwnLinesOneMore(bodies[..n], bodies[n], lines[..n], lines[n]);
    }
  }

  /** Once one body was more than a line, whoever reads next reads a line of a body written before its own. */
  lemma OlderLine(bodies: seq<string>, lines: seq<string>, j: nat)
    requires |lines| == |bodies| && lines <= LinesOf(bodies) && j < |bodies| && !AllOneLine(bodies[..j])
    ensures j < |LinesOf(bodies[..j])| && lines[j] == LinesOf(bodies[..j])[j]
  {
    LinesOfIff(bodies[..j]);
    LinesOfFirst(bodies, j);
  }

  /** The bodies whose exchange came back, and the lines they came back with. */
  function Bodies(log: seq<Exchange>): seq<string> {
    if log == [] then []
    else
      var e := log[|log| - 1];
      Bodies(log[..|log| - 1]) + if e.reply.Some? then [e.body] else []
  }

  function Cut(line: string): string {
    if line == "" then "" else line[..|line| - 1]
  }

  function Back(log: seq<Exchange>): (lines: seq<string>)
    ensures |lines| == |Bodies(log)|
  {
    if log == [] then []
    else
      var e := log[|log| - 1];
      Back(log[..|log| - 1]) + if e.reply.Some? then [Cut(e.reply.value)] else []
  }

  predicate IsLine(e: Exchange) {
    e.reply.Some? ==> e.reply.value == Cut(e.reply.value) + "\n"
  }

  predicate IsOwn(e: Exchange) {
    e.reply.Some? ==> e.reply.value == e.body + "\n"
  }

  predicate IsOneLine(e: Exchange) {
    e.reply.Some? ==> '\n' !in e.body
  }

  ghost predicate AllLines(log: seq<Exchange>) {
    forall i: nat | i < |log| :: IsLine(log[i])
  }

  /** Every reply that came back is the caller's own. */
  ghost predicate AllOwn(log: seq<Exchange>) {
    forall i: nat | i < |log| :: IsOwn(log[i])
  }

  /** No body whose exchange came back has a newline in it. */
  ghost predicate NoNewlines(log: seq<Exchange>) {
    forall i: nat | i < |log| :: IsOneLine(log[i])
  }

  lemma OwnByLines(e: Exchange)
    requires IsLine(e) && e.reply.Some?
    ensures IsOwn(e) <==> Cut(e.reply.value) == e.body
  {
    EndedLines(Cut(e.reply.value), e.body);
  }

  lemma SameWithLast<T>(a: seq<T>, x: T, b: seq<T>, y: T)
    requires |a| == |b|
    ensures a + [x] == b + [y] <==> a == b && x == y
  {
    if a + [x] == b + [y] {
      assert (a + [x])[..|a|] == a && (b + [y])[..|b|] == b;
      assert (a + [x])[|a|] == x && (b + [y])[|b|] == y;
    }
  }

  lemma AllOwnFront(log: seq<Exchange>)
    requires log != []
    ensures var n := |log| - 1; AllOwn(log) <==> AllOwn(log[..n]) && IsOwn(log[n])
  {
  }

  lemma {:induction false} AllOwnByLines(log: seq<Exchange>)
    requires AllLines(log)
    ensures AllOwn(log) <==> Back(log) == Bodies(log)
  {
    if log != [] {
      var n := |log| - 1;
      AllOwnByLines(log[..n]);
      AllOwnFront(log);
      if log[n].reply.Some? {
        OwnByLines(log[n]);
        SameWithLast(Back(log[..n]), Cut(log[n].reply.value), Bodies(log[..n]), log[n].body);
      } else {
        assert Bodies(log) == Bodies(log[..n]) && Back(log) == Back(log[..n]);
      }
    }
  }

  lemma NoNewlinesFront(log: seq<Exchange>)
    requires log != []
    ensures var n := |log| - 1; NoNewlines(log) <==> NoNewlines(log[..n]) && IsOneLine(log[n])
  {
  }

  lemma {:induction false} NoNewlinesByBodies(log: seq<Exchange>)
    ensures NoNewlines(log) <==> AllOneLine(Bodies(log))
  {
    if log != [] {
      var n := |log| - 1;
      NoNewlinesByBodies(log[..n]);
      NoNewlinesFront(log);
      if log[n].reply.Some? {
        AllOneLineFront(Bodies(log));
        assert Bodies(log)[..|Bodies(log)| - 1] == Bodies(log[..n]);
      } else {
        assert Bodies(log) == Bodies(log[..n]);
      }
    }
  }

  /**
   What has come back, and what has been echoed, are the first lines of the bodies exchanged and the
   one under way; with what the child has yet to echo they are all of them, while it lives.
   */
  ghost predicate Stream(p: Pipe, log: seq<Exchange>, underWay: seq<string>) {
    && AllLines(log)
    && Back(log) + p.replies <= LinesOf(Bodies(log) + underWay)
    && (p.alive ==> Back(log) + p.replies + p.requests == LinesOf(Bodies(log) + underWay))
  }

  lemma StreamWrites(p: Pipe, log: seq<Exchange>, body: string)
    requires Stream(p, log, [])
    ensures Stream(Written(p, body), log, [body])
  {
    assert Bodies(log) + [] == Bodies(log);
    LinesOfOneMore(Bodies(log), body);
    assert p.alive ==> Back(log) + p.replies + (p.requests + Lines(body)) == LinesOf(Bodies(log)) + Lines(body);
  }

  lemma BackOneMore(log: seq<Exchange>, body: string, line: string)
    ensures var log' := log + [Exchange(body, Some(line + "\n"))];
            && Bodies(log') == Bodies(log) + [body] && Back(log') == Back(log) + [line]
            && (AllLines(log) ==> AllLines(log'))
  {
    assert (log + [Exchange(body, Some(line + "\n"))])[..|log|] == log;
    assert Cut(line + "\n") == line;
  }

  lemma StreamReads(p: Pipe, log: seq<Exchange>, body: string)
    requires Stream(p, log, [body]) && p.replies != []
    ensures Stream(p.(replies := p.replies[1..]), log + [Exchange(body, Some(p.replies[0] + "\n"))], [])
  {
    BackOneMore(log, body, p.replies[0]);
    assert Bodies(log) + [body] + [] == Bodies(log) + [body];
    assert Back(log) + [p.replies[0]] + p.replies[1..] == Back(log) + p.replies;
  }

  lemma BackNoMore(log: seq<Exchange>, body: string)
    ensures var log' := log + [Exchange(body, None)];
            && Bodies(log') == Bodies(log) && Back(log') == Back(log)
            && (AllLines(log) ==> AllLines(log'))
  {
    assert (log + [Exchange(body, None)])[..|log|] == log;
  }

  /** A write refused, or a read at the end of what the child wrote. */
  lemma StreamFails(p: Pipe, log: seq<Exchange>, underWay: seq<string>, body: string)
    requires Stream(p, log, underWay) && !p.alive
    requires underWay == [] || (underWay == [body] && p.replies == [])
    ensures Stream(p, log + [Exchange(body, None)], [])
  {
    BackNoMore(log, body);
    assert Bodies(log) + [] == Bodies(log);
    if underWay != [] {
      LinesOfOneMore(Bodies(log), body);
      assert Back(log) + p.replies == Back(log);
    }
  }

  lemma StreamEchoes(p: Pipe, log: seq<Exchange>, underWay: seq<string>)
    requires Stream(p, log, underWay)
    ensures Stream(Echoed(p), log, underWay)
  {
    if p.alive && p.requests != [] {
      assert Back(log) + (p.replies + [p.requests[0]]) + p.requests[1..] == Back(log) + p.replies + p.requests;
    }
  }

  lemma StreamDies(p: Pipe, log: seq<Exchange>, underWay: seq<string>)
    requires Stream(p, log, underWay)
    ensures Stream(Died(p), log, underWay)
  {
  }

  lemma StreamFirst(p: Pipe, log: seq<Exchange>, underWay: seq<string>)
    requires Stream(p, log, underWay) && |underWay| <= 1
    ensures Back(log) <= LinesOf(Bodies(log))
  {
    assert Bodies(log) + [] == Bodies(log);
    if underWay != [] {
      LinesOfOneMore(Bodies(log), underWay[0]);
      assert underWay == [underWay[0]];
    }
    assert Back(log) <= Back(log) + p.replies;
  }

  /** Each reply that came back is its own caller's if and only if no body whose exchange came back has a newline. */
  lemma StreamOwnIff(p: Pipe, log: seq<Exchange>, underWay: seq<string>)
    requires Stream(p, log, underWay) && |underWay| <= 1
    ensures AllOwn(log) <==> NoNewlines(log)
  {
    StreamFirst(p, log, underWay);
    OwnLinesIff(Bodies(log), Back(log));
    AllOwnByLines(log);
    NoNewlinesByBodies(log);
  }

  /** Between exchanges with a living child, the pipe is in step if and only if there has been no such body. */
  lemma StreamInStepIff(p: Pipe, log: seq<Exchange>)
    requires Stream(p, log, []) && p.alive
    ensures InStep(p) <==> NoNewlines(log)
  {
    assert Bodies(log) + [] == Bodies(log);
    LinesOfIff(Bodies(log));
    NoNewlinesByBodies(log);
    assert |Back(log) + p.replies + p.requests| == |Bodies(log)| + |p.replies| + |p.requests|;
  }

  lemma {:induction false} BodiesGrow(log: seq<Exchange>, longer: seq<Exchange>)
    requires log <= longer
    ensures Bodies(log) <= Bodies(longer)
  {
    if |log| < |longer| {
      BodiesGrow(log, longer[..|longer| - 1]);
    } else {
      assert log == longer;
    }
  }

  /** The reply of exchange j of those that came back, when one before it had a newline. */
  ghost predicate GetsOlderLine(log: seq<Exchange>, j: nat) {
    && j < |Back(log)| && j < |LinesOf(Bodies(log)[..j])|
    && Back(log)[j] == LinesOf(Bodies(log)[..j])[j]
  }

  lemma StreamOlderLine(p: Pipe, log: seq<Exchange>, underWay: seq<string>, k: nat, j: nat)
    requires Stream(p, log, underWay) && |underWay| <= 1
    requires k < j < |Bodies(log)| && '\n' in Bodies(log)[k]
    ensures GetsOlderLine(log, j)
  {
    StreamFirst(p, log, underWay);
    assert '\n' in Bodies(log)[..j][k];
    OlderLine(Bodies(log), Back(log), j);
  }

  function Failure(e: Exchange): nat {
    if e.reply.None? then 1 else 0
  }

  ghost predicate AnyFailed(log: seq<Exchange>) {
    exists i: nat | i < |log| :: log[i].reply.None?
  }

  lemma AtomicAppend(log: seq<Exchange>, e: Exchange)
    requires Atomic(log)
    requires e.reply.Some? ==> e.reply.value == e.body + "\n" && !AnyFailed(log)
    ensures Atomic(log + [e])
    ensures AnyFailed(log + [e]) <==> AnyFailed(log) || e.reply.None?
    ensures Total(log + [e], Failure) == Total(log, Failure) + Failure(e)
  {
    TotalAppend(log, Failure, e);
    if AnyFailed(log) {
      var i: nat :| i < |log| && log[i].reply.None?;
      assert (log + [e])[i].reply.None?;
    }
    if e.reply.None? {
      assert (log + [e])[|log|].reply.None?;
    }
  }

  // ----- bodies of one line ----------------------------------------------------------------

  /** A failed exchange left nothing to read, and nothing will ever be echoed again. */
  predicate DeadAndDrained(p: Pipe) {
    !p.alive && p.replies == []
  }

  /** With bodies of one line exchanges are atomic, and there is never more than one line under way. */
  ghost predicate Wire(p: Pipe, log: seq<Exchange>, underWay: seq<string>) {
    && (if underWay == [] then InStep(p) else UnderWay(p, underWay[0]))
    && Atomic(log)
    && (AnyFailed(log) ==> DeadAndDrained(p))
  }

  lemma WireWrites(p: Pipe, log: seq<Exchange>, body: string)
    requires Wire(p, log, []) && '\n' !in body
    ensures Wire(Written(p, body), log, [body])
  {
    OneLineIff(body);
    assert Lines(body) == [body];
  }

  lemma WireReads(p: Pipe, log: seq<Exchange>, body: string)
    requires Wire(p, log, [body]) && p.replies != []
    ensures Wire(p.(replies := p.replies[1..]), log + [Exchange(body, Some(p.replies[0] + "\n"))], [])
  {
    AtomicAppend(log, Exchange(body, Some(p.replies[0] + "\n")));
  }

  lemma WireFails(p: Pipe, log: seq<Exchange>, underWay: seq<string>, body: string)
    requires Wire(p, log, underWay) && !p.alive && (underWay == [] || p.replies == [])
    ensures Wire(p, log + [Exchange(body, None)], [])
  {
    AtomicAppend(log, Exchange(body, None));
  }

  lemma WireEchoes(p: Pipe, log: seq<Exchange>, underWay: seq<string>)
    requires Wire(p, log, underWay)
    ensures Wire(Echoed(p), log, underWay) && Wire(Died(p), log, underWay)
  {
  }

  lemma AtMostOneLine(p: Pipe, log: seq<Exchange>, underWay: seq<string>)
    requires Wire(p, log, underWay)
    ensures |p.replies| <= 1 && (p.alive ==> |p.requests + p.replies| <= 1)
  {
  }

  lemma AtomicIsOwn(log: seq<Exchange>, e: Exchange)
    requires Atomic(log) && e in log && e.reply.Some?
    ensures e.reply.value == e.body + "\n"
  {
  }

  // ----- one exchange at a time ------------------------------------------------------------

  /** The pipe, the exchanges finished, and the body written whose line has not been read yet. */
  datatype Wires = Wires(pipe: Pipe, log: seq<Exchange>, underWay: Option<string>)

  datatype Move = Write(body: string) | Refuse(body: string) | Read | Echo | Die

  /** A move of one user of the pipe, who reads a line back before writing again, or of the child. */
  function Play(w: Wires, m: Move): Wires {
    match m
    case Write(body) => if w.underWay.None? then Wires(Written(w.pipe, body), w.log, Some(body)) else w
    case Refuse(body) =>
      if w.underWay.None? && !w.pipe.alive then w.(log := w.log + [Exchange(body, None)]) else w
    case Read =>
      if w.underWay.None? then w
      else if w.pipe.replies != [] then
        Wires(w.pipe.(replies := w.pipe.replies[1..]),
              w.log + [Exchange(w.underWay.value, Some(w.pipe.replies[0] + "\n"))], None)
      else if !w.pipe.alive then Wires(w.pipe, w.log + [Exchange(w.underWay.value, None)], None)
      else w
    case Echo => w.(pipe := Echoed(w.pipe))
    case Die => w.(pipe := Died(w.pipe))
  }

  function Played(moves: seq<Move>): Wires {
    if moves == [] then Wires(Pipe([], [], true), [], None)
    else Play(Played(moves[..|moves| - 1]), moves[|moves| - 1])
  }

  /** A step of a transport is one move at most. */
  function PlayAny(w: Wires, moves: seq<Move>): Wires
    requires |moves| <= 1
  {
    if moves == [] then w else Play(w, moves[0])
  }

  lemma PlayedMore(moves: seq<Move>, more: seq<Move>)
    requires |more| <= 1
    ensures Played(moves + more) == PlayAny(Played(moves), more)
    ensures OneLineMoves(moves) && OneLineMoves(more) ==> OneLineMoves(moves + more)
  {
    if more == [] {
      assert moves + more == moves;
    } else {
      assert (moves + more)[..|moves|] == moves;
    }
  }

  function AsList(underWay: Option<string>): (bodies: seq<string>)
    ensures |bodies| <= 1
  {
    if underWay.None? then [] else [underWay.value]
  }

  lemma PlayStream(w: Wires, m: Move)
    requires Stream(w.pipe, w.log, AsList(w.underWay))
    ensures var w' := Play(w, m); Stream(w'.pipe, w'.log, AsList(w'.underWay))
  {
    match m
    case Write(body) => if w.underWay.None? { StreamWrites(w.pipe, w.log, body); }
    case Refuse(body) => if w.underWay.None? && !w.pipe.alive { StreamFails(w.pipe, w.log, [], body); }
    case Read => if w.underWay.Some? { ReadStream(w); }
    case Echo => StreamEchoes(w.pipe, w.log, AsList(w.underWay));
    case Die => StreamDies(w.pipe, w.log, AsList(w.underWay));
  }

  lemma ReadStream(w: Wires)
    requires Stream(w.pipe, w.log, AsList(w.underWay)) && w.underWay.Some?
    ensures var w' := Play(w, Read); Stream(w'.pipe, w'.log, AsList(w'.underWay))
  {
    var body := w.underWay.value;
    if w.pipe.replies != [] {
      StreamReads(w.pipe, w.log, body);
    } else if !w.pipe.alive {
      StreamFails(w.pipe, w.log, [body], body);
    }
  }

  lemma {:induction false} PlayedStream(moves: seq<Move>)
    ensures var w := Played(moves); Stream(w.pipe, w.log, AsList(w.underWay))
  {
    if moves != [] {
      PlayedStream(moves[..|moves| - 1]);
      PlayStream(Played(moves[..|moves| - 1]), moves[|moves| - 1]);
    }
  }

  predicate WritesOneLine(m: Move) {
    m.Write? || m.Refuse? ==> '\n' !in m.body
  }

  ghost predicate OneLineMoves(moves: seq<Move>) {
    forall i: nat | i < |moves| :: WritesOneLine(moves[i])
  }

  lemma PlayWire(w: Wires, m: Move)
    requires Wire(w.pipe, w.log, AsList(w.underWay)) && WritesOneLine(m)
    ensures var w' := Play(w, m); Wire(w'.pipe, w'.log, AsList(w'.underWay))
  {
    match m
    case Write(body) => if w.underWay.None? { WireWrites(w.pipe, w.log, body); }
    case Refuse(body) => if w.underWay.None? && !w.pipe.alive { WireFails(w.pipe, w.log, [], body); }
    case Read => if w.underWay.Some? { ReadWire(w); }
    case _ => WireEchoes(w.pipe, w.log, AsList(w.underWay));
  }

  lemma ReadWire(w: Wires)
    requires Wire(w.pipe, w.log, AsList(w.underWay)) && w.underWay.Some?
    ensures var w' := Play(w, Read); Wire(w'.pipe, w'.log, AsList(w'.underWay))
  {
    var body := w.underWay.value;
    if w.pipe.replies != [] {
      WireReads(w.pipe, w.log, body);
    } else if !w.pipe.alive {
      WireFails(w.pipe, w.log, [body], body);
    }
  }

  lemma {:induction false} PlayedWire(moves: seq<Move>)
    requires OneLineMoves(moves)
    ensures var w := Played(moves); Wire(w.pipe, w.log, AsList(w.underWay))
  {
    if moves != [] {
      PlayedWire(moves[..|moves| - 1]);
      PlayWire(Played(moves[..|moves| - 1]), moves[|moves| - 1]);
    }
  }

  /**
   Whatever the bodies: every reply that has come back is its own caller's if and only if no body
   whose exchange came back has a newline in it; and while the child lives the pipe is in step
   between exchanges if and only if there has been no such body.
   */
  lemma PlayedOwnIff(moves: seq<Move>)
    ensures var w := Played(moves);
            && (AllOwn(w.log) <==> NoNewlines(w.log))
            && (w.underWay.None? && w.pipe.alive ==> (InStep(w.pipe) <==> NoNewlines(w.log)))
  {
    PlayedStream(moves);
    var w := Played(moves);
    StreamOwnIff(w.pipe, w.log, AsList(w.underWay));
    if w.underWay.None? && w.pipe.alive {
      StreamInStepIff(w.pipe, w.log);
    }
  }

  /** Once a body with a newline came back, each exchange that comes back after it is given a line of an earlier body. */
  lemma PlayedOlderLine(moves: seq<Move>, k: nat, j: nat)
    requires k < j < |Bodies(Played(moves).log)| && '\n' in Bodies(Played(moves).log)[k]
    ensures GetsOlderLine(Played(moves).log, j)
  {
    PlayedStream(moves);
    var w := Played(moves);
    StreamOlderLine(w.pipe, w.log, AsList(w.underWay), k, j);
  }

  /** With bodies of one line exchanges are atomic, and there is never more than one line under way. */
  lemma PlayedIsAtomic(moves: seq<Move>)
    requires OneLineMoves(moves)
    ensures var w := Played(moves);
            && Atomic(w.log)
            && |w.pipe.replies| <= 1
            && (w.pipe.alive ==> |w.pipe.requests + w.pipe.replies| <= 1)
            && (w.underWay.None? ==> InStep(w.pipe))
  {
    PlayedWire(moves);
    var w := Played(moves);
    AtMostOneLine(w.pipe, w.log, AsList(w.underWay));
  }

  /** What an exchange with a newline earlier in the log means for a longer log. */
  lemma NewlineStays(log: seq<Exchange>, longer: seq<Exchange>, k: nat)
    requires log <= longer && k < |Bodies(log)| && '\n' in Bodies(log)[k]
    ensures k < |Bodies(longer)| && '\n' in Bodies(longer)[k] && !NoNewlines(longer)
  {
    BodiesGrow(log, longer);
    NoNewlinesByBodies(longer);
  }
}
