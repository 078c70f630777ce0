/** The window's end of the byte stream from the Installation Engine: a reader
    thread appends what arrives, and each look cuts the complete lines off. */
module LineFraming {
  import opened Text

  const NEWLINE: byte := 10
  const RETURN: byte := 13
  const LIMIT := 1024 * 1024
  const CHUNK := 4096

  // ── Lines, by one pass from the front

  /** The complete lines of `line + s`, where `line` is what was already read of
      the first one, and what follows the last line end. */
  function Cut(s: Bytes, line: Bytes): (seq<Bytes>, Bytes) {
    if s == [] then ([], line)
    else if s[0] == NEWLINE then
      var (lines, tail) := Cut(s[1..], []);
      ([line] + lines, tail)
    else Cut(s[1..], line + [s[0]])
  }

  function Lines(s: Bytes): seq<Bytes> { Cut(s, []).0 }

  function Tail(s: Bytes): Bytes { Cut(s, []).1 }

  /** The same lines with their line ends. */
  function Unlines(lines: seq<Bytes>): Bytes {
    if lines == [] then [] else lines[0] + [NEWLINE] + Unlines(lines[1..])
  }

  predicate Whole(s: Bytes) { forall i :: 0 <= i < |s| ==> s[i] != NEWLINE }

  // ── The exchange

  /** What the process holds of the connection. */
  datatype Link = Link(held: bool, closed: bool, unread: Bytes)

  const NO_LINK := Link(false, false, [])

  /** What can happen, one at a time: a look is the part of a poll that takes
      events, so bytes may also arrive between connecting and looking. */
  datatype Step =
    | Connect
    | Receive(chunk: Bytes)
    | Gone
    | Look
    | Finish

  predicate Possible(l: Link, s: Step) {
    match s
    case Connect => !l.held
    case Receive(chunk) => l.held && !l.closed && 0 < |chunk| <= CHUNK
    case Gone => l.held && !l.closed
    case Look => l.held
    case Finish => l.held && l.closed
  }

  predicate Dropped(l: Link, s: Step) { s.Receive? && |l.unread| >= LIMIT }

  /** The next state, and the lines handed on. */
  function Advance(l: Link, s: Step): (Link, seq<Bytes>) {
    match s
    case Connect => (l.(held := true, closed := false), [])
    case Receive(chunk) => (if Dropped(l, s) then l else l.(unread := l.unread + chunk), [])
    case Gone => (l.(closed := true), [])
    case Look => (l.(unread := Tail(l.unread)), Lines(l.unread))
    case Finish => (l.(held := false, unread := []), Lines(l.unread))
  }

  /** A line as the reader of events sees it: without a carriage return before
      its line end. */
  function Bare(line: Bytes): Bytes {
    if line != [] && line[|line| - 1] == RETURN then line[..|line| - 1] else line
  }

  /** The events of some lines: a line that is not an event is not passed on. */
  function EventsOf<E>(lines: seq<Bytes>, parse: Bytes -> Option<E>): seq<E> {
    if lines == [] then []
    else (match parse(Bare(lines[0])) case Some(e) => [e] case None => []) + EventsOf(lines[1..], parse)
  }

  datatype Poll<E> = Closed(events: seq<E>) | Waiting | Open(events: seq<E>)

  class Conversation<E> {
    const parse: Bytes -> Option<E>
    var held: bool
    var closed: bool
    var unread: Bytes

    function State(): Link
      reads this
    {
      Link(held, closed, unread)
    }

    constructor (parse: Bytes -> Option<E>)
      ensures State() == NO_LINK && this.parse == parse
    {
      this.parse := parse;
      held, closed, unread := false, false, [];
    }

    /** The reader thread, once per successful read. */
    method OnBytes(chunk: Bytes)
      modifies this`unread
      ensures State() == Advance(old(State()), Receive(chunk)).0
    {
      if |unread| < LIMIT {
        unread := unread + chunk;
      }
    }

    /** The reader thread, when the engine closes its end. */
    method OnGone()
      modifies this`closed
      ensures State() == Advance(old(State()), Gone).0
    {
      closed := true;
    }

    /** The complete lines received so far, as events. */
    method Events(last: bool) returns (events: seq<E>)
      modifies this`unread
      ensures events == EventsOf(Lines(old(unread)), parse)
      ensures unread == if last then [] else Tail(old(unread))
    {
      var end := |unread|;
      while end > 0 && unread[end - 1] != NEWLINE
        invariant 0 <= end <= |unread|
        invariant Whole(unread[end..])
      {
        end := end - 1;
      }
      var complete := unread[..end];
      CutAtLastLine(unread, end);
      unread := unread[end..];
      if last {
        unread := [];
      }
      events := Parsed(complete);
    }

    /** Each line of a text made of complete lines, parsed. */
    method Parsed(complete: Bytes) returns (events: seq<E>)
      requires Tail(complete) == []
      ensures events == EventsOf(Lines(complete), parse)
    {
      hide EventsOf;
      events := [];
      var line: Bytes, i := [], 0;
      ghost var seen: seq<Bytes> := [];
      assert complete[0..] == complete && Lines(complete) == seen + Cut(complete[0..], line).0;
      NoEvents(parse);
      while i < |complete|
        invariant 0 <= i <= |complete|
        invariant Lines(complete) == seen + Cut(complete[i..], line).0
        invariant events == EventsOf(seen, parse)
      {
        assert complete[i..][0] == complete[i] && complete[i..][1..] == complete[i + 1..];
        if complete[i] == NEWLINE {
          var parsed := parse(Bare(line));
          if parsed.Some? { events := events + [parsed.value]; }
          EventsOfOneMore(seen, line, parse);
          assert seen + ([line] + Cut(complete[i + 1..], []).0) == seen + [line] + Cut(complete[i + 1..], []).0;
          seen := seen + [line];
          line := [];
        } else {
          line := line + [complete[i]];
        }
        i := i + 1;
      }
      assert complete[i..] == [] && seen + [] == seen;
    }

    /** One poll of the window: `connects` is whether the engine's socket takes
        a connection now. */
    method OnPoll(connects: bool) returns (r: Poll<E>)
      modifies this
      ensures var was := old(State());
              if was.held && was.closed then
                var (next, lines) := Advance(was, Finish);
                State() == next && r == Closed(EventsOf(lines, parse))
              else if !was.held && !connects then
                State() == was && r == Waiting
              else
                var begun := if was.held then was else Advance(was, Connect).0;
                var (next, lines) := Advance(begun, Look);
                State() == next && r == Open(EventsOf(lines, parse))
    {
      if held && closed {
        held := false;
        var events := Events(true);
        return Closed(events);
      }
      if !held {
        if !connects { return Waiting; }
        closed := false;
        held := true;
      }
      var events := Events(false);
      return Open(events);
    }
  }

  // ── Cutting in pieces

  lemma NoEvents<E>(parse: Bytes -> Option<E>)
    ensures EventsOf([], parse) == []
  {
  }

  lemma {:induction false} EventsOfOneMore<E>(lines: seq<Bytes>, line: Bytes, parse: Bytes -> Option<E>)
    ensures EventsOf(lines + [line], parse)
         == EventsOf(lines, parse) + (match parse(Bare(line)) case Some(e) => [e] case None => [])
  {
    hide Bare;
    if lines == [] {
      assert lines + [line] == [line] && [line][1..] == [];
    } else {
      assert (lines + [line])[1..] == lines[1..] + [line];
      EventsOfOneMore(lines[1..], line, parse);
    }
  }

  /** Cutting a text is cutting its front and then the rest with what was left. */
  lemma {:induction false} CutInPieces(a: Bytes, b: Bytes, line: Bytes)
    ensures Cut(a + b, line)
         == (Cut(a, line).0 + Cut(b, Cut(a, line).1).0, Cut(b, Cut(a, line).1).1)
  {
    if a == [] {
      assert a + b == b && [] + Cut(b, line).0 == Cut(b, line).0;
    } else {
      assert (a + b)[0] == a[0] && (a + b)[1..] == a[1..] + b;
      if a[0] == NEWLINE {
        CutInPieces(a[1..], b, []);
        var front, back := Cut(a[1..], []).0, Cut(b, Cut(a[1..], []).1).0;
        assert [line] + (front + back) == [line] + front + back;
      } else {
        CutInPieces(a[1..], b, line + [a[0]]);
      }
    }
  }

  lemma {:induction false} CutWhole(s: Bytes, line: Bytes)
    requires Whole(s)
    ensures Cut(s, line) == ([], line + s)
  {
    if s == [] {
      assert line + s == line;
    } else {
      CutWhole(s[1..], line + [s[0]]);
      assert line + [s[0]] + s[1..] == line + s;
    }
  }

  /** Cutting at the last line end finds every complete line. */
  lemma CutAtLastLine(s: Bytes, end: nat)
    requires end <= |s| && Whole(s[end..]) && (end > 0 ==> s[end - 1] == NEWLINE)
    ensures Lines(s) == Lines(s[..end]) && Tail(s) == s[end..] && Tail(s[..end]) == []
  {
    assert s[..end] + s[end..] == s;
    CutInPieces(s[..end], s[end..], []);
    CutWhole(s[end..], Tail(s[..end]));
    if end > 0 {
      assert s[..end - 1] + [NEWLINE] == s[..end];
      CutInPieces(s[..end - 1], [NEWLINE], []);
      assert [NEWLINE][1..] == [];
    }
    assert Tail(s[..end]) == [] && [] + s[end..] == s[end..];
  }

  /** The lines and the tail of a text are the one way to write it as complete
      lines and an unfinished one. */
  lemma {:induction false} LinesRebuild(s: Bytes, line: Bytes)
    requires Whole(line)
    ensures Unlines(Cut(s, line).0) + Cut(s, line).1 == line + s
    ensures Whole(Cut(s, line).1) && forall l <- Cut(s, line).0 :: Whole(l)
  {
    if s == [] {
      assert line + s == line;
    } else if s[0] == NEWLINE {
      LinesRebuild(s[1..], []);
      var (lines, tail) := Cut(s[1..], []);
      assert ([line] + lines)[1..] == lines;
      assert line + [NEWLINE] + Unlines(lines) + tail == line + [NEWLINE] + (Unlines(lines) + tail);
      assert line + [NEWLINE] + s[1..] == line + s;
    } else {
      LinesRebuild(s[1..], line + [s[0]]);
      assert line + [s[0]] + s[1..] == line + s;
    }
  }

  lemma {:induction false} LinesAreUnique(lines: seq<Bytes>, tail: Bytes)
    requires Whole(tail) && forall l <- lines :: Whole(l)
    ensures Lines(Unlines(lines) + tail) == lines && Tail(Unlines(lines) + tail) == tail
  {
    hide Cut, Whole;
    if lines == [] {
      assert Unlines(lines) + tail == tail && [] + tail == tail;
      CutWhole(tail, []);
    } else {
      var rest := Unlines(lines[1..]) + tail;
      assert Unlines(lines) + tail == lines[0] + ([NEWLINE] + rest);
      CutFirstLine(lines[0], rest);
      assert forall l <- lines[1..] :: l in lines;
      LinesAreUnique(lines[1..], tail);
    }
  }

  lemma CutFirstLine(line: Bytes, rest: Bytes)
    requires Whole(line)
    ensures Lines(line + ([NEWLINE] + rest)) == [line] + Lines(rest)
    ensures Tail(line + ([NEWLINE] + rest)) == Tail(rest)
  {
    hide Cut, Whole;
    CutWhole(line, []);
    assert [] + line == line;
    CutInPieces(line, [NEWLINE] + rest, []);
    CutLineEnd(rest, line);
  }

  lemma CutLineEnd(rest: Bytes, line: Bytes)
    ensures Cut([NEWLINE] + rest, line) == ([line] + Lines(rest), Tail(rest))
  {
    assert ([NEWLINE] + rest)[1..] == rest;
  }

  // ── Whole runs

  /** A run with what a look cannot see: all that arrived and all that was kept
      since the last connection, and the lines handed on since. */
  datatype Log = Log(link: Link, received: Bytes, kept: Bytes, delivered: seq<Bytes>, dropped: nat)

  function Record(log: Log, s: Step): Log {
    var (link, lines) := Advance(log.link, s);
    match s
    case Connect => Log(link, [], [], [], 0)
    case Receive(chunk) =>
      if Dropped(log.link, s) then Log(link, log.received + chunk, log.kept, log.delivered, log.dropped + 1)
      else Log(link, log.received + chunk, log.kept + chunk, log.delivered, log.dropped)
    case Gone => log.(link := link)
    case Look => log.(link := link, delivered := log.delivered + lines)
    case Finish => log.(link := link, delivered := log.delivered + lines)
  }

  predicate Happens(log: Log, steps: seq<Step>)
    decreases |steps|
  {
    steps == [] || (Possible(log.link, steps[0]) && Happens(Record(log, steps[0]), steps[1..]))
  }

  function After(log: Log, steps: seq<Step>): Log
    decreases |steps|
  {
    if steps == [] then log else After(Record(log, steps[0]), steps[1..])
  }

  const NO_LOG := Log(NO_LINK, [], [], [], 0)

  ghost predicate Faithful(log: Log) {
    && |log.link.unread| < LIMIT + CHUNK
    && (!log.link.held ==> log.link.unread == [] && log.delivered == Lines(log.kept))
    && (log.link.held ==> Cut(log.kept, []) == (log.delivered + Lines(log.link.unread), Tail(log.link.unread)))
    && |log.kept| <= |log.received|
    && (log.dropped > 0 ==> |log.kept| < |log.received|)
    && (log.dropped == 0 ==> log.kept == log.received)
  }

  /** The lines after a longer tail. */
  lemma MoreArrives(kept: Bytes, delivered: seq<Bytes>, unread: Bytes, chunk: Bytes)
    requires Cut(kept, []) == (delivered + Lines(unread), Tail(unread))
    ensures Cut(kept + chunk, []) == (delivered + Lines(unread + chunk), Tail(unread + chunk))
  {
    hide Cut;
    CutInPieces(kept, chunk, []);
    CutInPieces(unread, chunk, []);
    var more := Cut(chunk, Tail(unread)).0;
    assert delivered + Lines(unread) + more == delivered + (Lines(unread) + more);
  }

  lemma TailIsFinished(s: Bytes)
    ensures Lines(Tail(s)) == [] && Tail(Tail(s)) == Tail(s) && |Tail(s)| <= |s|
  {
    LinesRebuild(s, []);
    CutWhole(Tail(s), []);
    assert [] + Tail(s) == Tail(s);
    assert |Unlines(Lines(s)) + Tail(s)| == |[] + s|;
  }

  lemma StaysFaithful(log: Log, s: Step)
    requires Faithful(log) && Possible(log.link, s)
    ensures Faithful(Record(log, s))
  {
    hide Cut;
    match s
    case Connect =>
      NothingCut();
      assert Record(log, s).delivered + Lines([]) == [];
    case Receive(chunk) =>
      if !Dropped(log.link, s) {
        MoreArrives(log.kept, log.delivered, log.link.unread, chunk);
      }
    case Gone =>
    case Look =>
      TailIsFinished(log.link.unread);
      assert log.delivered + Lines(log.link.unread) + [] == log.delivered + Lines(log.link.unread);
    case Finish =>
  }

  lemma NothingCut()
    ensures Cut([], []) == ([], [])
  {
  }

  lemma {:induction false} RunsAreFaithful(log: Log, steps: seq<Step>)
    requires Faithful(log) && Happens(log, steps)
    ensures Faithful(After(log, steps))
    decreases |steps|
  {
    hide Faithful, Record, Possible;
    if steps != [] {
      StaysFaithful(log, steps[0]);
      RunsAreFaithful(Record(log, steps[0]), steps[1..]);
    }
  }

  /** However the bytes are cut into chunks and however reads interleave with
      looks: what was handed on and what waits spell the stream exactly when no
      chunk was dropped, the lines are its complete lines in order, and the wait
      stays bounded. */
  lemma LinesArriveWhole(steps: seq<Step>)
    requires Happens(NO_LOG, steps)
    ensures var log := After(NO_LOG, steps);
      && |log.link.unread| <= LIMIT - 1 + CHUNK
      && (log.link.held ==> (Unlines(log.delivered) + log.link.unread == log.received <==> log.dropped == 0))
      && (log.dropped == 0 ==> log.delivered + Lines(log.link.unread) == Lines(log.received))
  {
    hide Cut, Record, Possible;
    StartsFaithful();
    RunsAreFaithful(NO_LOG, steps);
    var log := After(NO_LOG, steps);
    if log.link.held {
      Respelt(log.kept, log.delivered, log.link.unread);
    } else {
      NothingCut();
      assert log.delivered + [] == log.delivered;
    }
  }

  lemma StartsFaithful()
    ensures Faithful(NO_LOG)
  {
  }

  /** Handed on and waiting, together, are what was kept. */
  lemma Respelt(kept: Bytes, delivered: seq<Bytes>, unread: Bytes)
    requires Cut(kept, []) == (delivered + Lines(unread), Tail(unread))
    ensures Unlines(delivered) + unread == kept
  {
    hide Cut, Unlines;
    LinesRebuild(kept, []);
    LinesRebuild(unread, []);
    assert [] + kept == kept && [] + unread == unread;
    UnlinesAppend(delivered, Lines(unread));
    assert Unlines(delivered) + (Unlines(Lines(unread)) + Tail(unread))
        == Unlines(delivered) + Unlines(Lines(unread)) + Tail(unread);
  }

  lemma {:induction false} UnlinesAppend(a: seq<Bytes>, b: seq<Bytes>)
    ensures Unlines(a + b) == Unlines(a) + Unlines(b)
  {
    if a == [] {
      assert a + b == b;
    } else {
      assert (a + b)[0] == a[0] && (a + b)[1..] == a[1..] + b;
      UnlinesAppend(a[1..], b);
    }
  }

  lemma {:induction false} OneMore(log: Log, steps: seq<Step>, s: Step)
    requires Happens(log, steps + [s])
    ensures Happens(log, steps) && Possible(After(log, steps).link, s)
    ensures After(log, steps + [s]) == Record(After(log, steps), s)
    decreases |steps|
  {
    hide Record, Possible;
    if steps == [] {
      assert steps + [s] == [s] && [s][1..] == [];
    } else {
      assert (steps + [s])[0] == steps[0] && (steps + [s])[1..] == steps[1..] + [s];
      OneMore(Record(log, steps[0]), steps[1..], s);
    }
  }

  /** After a look, every complete line has been handed on and only the
      unfinished one waits; after the last look at a closed conversation nothing
      waits, and the next one starts empty. */
  lemma LooksHandOnEveryLine(steps: seq<Step>, s: Step)
    requires Happens(NO_LOG, steps + [s])
    ensures var log := After(NO_LOG, steps + [s]);
      && (s.Look? && log.dropped == 0 ==>
            log.delivered == Lines(log.received) && log.link.unread == Tail(log.received))
      && (s.Finish? ==> log.link.unread == [])
      && (s.Finish? && log.dropped == 0 ==> log.delivered == Lines(log.received))
      && (s.Connect? ==> log.link.unread == [] && log.delivered == [])
  {
    hide Cut, Possible, Faithful;
    OneMore(NO_LOG, steps, s);
    StartsFaithful();
    RunsAreFaithful(NO_LOG, steps);
    var was := After(NO_LOG, steps);
    StepHandsOn(was, s);
  }

  lemma StepHandsOn(was: Log, s: Step)
    requires Faithful(was) && Possible(was.link, s)
    ensures var log := Record(was, s);
      && (s.Look? && log.dropped == 0 ==>
            log.delivered == Lines(log.received) && log.link.unread == Tail(log.received))
      && (s.Finish? ==> log.link.unread == [])
      && (s.Finish? && log.dropped == 0 ==> log.delivered == Lines(log.received))
      && (s.Connect? ==> log.link.unread == [] && log.delivered == [])
  {
    hide Cut;
  }

  // ── Which connection it is

  /** There is a connection: one was made, and no last look has ended it. */
  predicate Connected(steps: seq<Step>)
    decreases |steps|
  {
    if steps == [] then false
    else
      match steps[|steps| - 1]
      case Connect => true
      case Finish => false
      case _ => Connected(steps[..|steps| - 1])
  }

  /** The engine has closed its end since the last connection was made. */
  predicate Ended(steps: seq<Step>)
    decreases |steps|
  {
    if steps == [] then false
    else
      match steps[|steps| - 1]
      case Connect => false
      case Gone => true
      case _ => Ended(steps[..|steps| - 1])
  }

  /** In every run: there is a link while there is a connection, and it is marked
      closed exactly when the engine has closed that very connection. So a new one is
      read from again, whatever became of the one before. */
  lemma {:induction false} LinkIsItsConnection(steps: seq<Step>)
    requires Happens(NO_LOG, steps)
    ensures var link := After(NO_LOG, steps).link; (link.held <==> Connected(steps)) && (link.closed <==> Ended(steps))
    decreases |steps|
  {
    hide Cut, Possible;
    if steps != [] {
      var before, s := steps[..|steps| - 1], steps[|steps| - 1];
      assert before + [s] == steps;
      OneMore(NO_LOG, before, s);
      LinkIsItsConnection(before);
    }
  }

  /** Of what arrives while a mebibyte or more waits, nothing is kept, and of
      anything else, everything. */
  lemma KeptOrDropped(log: Log, chunk: Bytes)
    ensures var next := Record(log, Receive(chunk));
      && next.received == log.received + chunk
      && (if |log.link.unread| < 1048576
          then next.link.unread == log.link.unread + chunk && next.kept == log.kept + chunk && next.dropped == log.dropped
          else next.link.unread == log.link.unread && next.kept == log.kept && next.dropped == log.dropped + 1)
  {
  }

  /** A read brings one to four thousand and ninety-six bytes, while the engine has
      not closed its end. */
  lemma ReadsAreTaken(l: Link, chunk: Bytes)
    ensures Possible(l, Receive(chunk)) <==> l.held && !l.closed && 1 <= |chunk| <= 4096
  {
  }

  /** In every run less than a mebibyte and a chunk of four kibibytes waits. */
  lemma TheWaitIsBounded(steps: seq<Step>)
    requires Happens(NO_LOG, steps)
    ensures |After(NO_LOG, steps).link.unread| < 1048576 + 4096
  {
    LinesArriveWhole(steps);
  }

  // ── What a line is

  /** A line ends at the first line feed. */
  lemma LineFeedEndsALine(line: Bytes, rest: Bytes)
    requires 10 !in line
    ensures Lines(line + [10] + rest) == [line] + Lines(rest) && Tail(line + [10] + rest) == Tail(rest)
  {
    assert line + [10] + rest == line + ([10] + rest);
    assert Whole(line);
    CutInPieces(line, [10] + rest, []);
    CutWhole(line, []);
    assert [] + line == line && [] + Cut([10] + rest, line).0 == Cut([10] + rest, line).0;
    assert ([10] + rest)[1..] == rest;
  }

  /** The lines with a carriage return before each line end. */
  function WithReturns(lines: seq<Bytes>): seq<Bytes> {
    if lines == [] then [] else [lines[0] + [13]] + WithReturns(lines[1..])
  }

  predicate NoReturn(line: Bytes) { line != [] ==> line[|line| - 1] != 13 }

  /** Line ends of either kind give the same events. */
  lemma {:induction false} ReturnsAreDropped<E>(lines: seq<Bytes>, parse: Bytes -> Option<E>)
    requires forall line <- lines :: NoReturn(line)
    ensures EventsOf(WithReturns(lines), parse) == EventsOf(lines, parse)
  {
    if lines != [] {
      var line := lines[0];
      assert line in lines && forall other <- lines[1..] :: other in lines;
      ReturnsAreDropped(lines[1..], parse);
      assert (line + [13])[..|line|] == line;
      assert WithReturns(lines)[1..] == WithReturns(lines[1..]);
      assert Bare(line + [13]) == line == Bare(line);
    }
  }

  /** Each line that is an event gives it, in order, and the others nothing. */
  lemma {:induction false} EventsAreInOrder<E>(a: seq<Bytes>, line: Bytes, b: seq<Bytes>, parse: Bytes -> Option<E>)
    requires NoReturn(line)
    ensures EventsOf(a + [line] + b, parse)
         == EventsOf(a, parse) + (if parse(line).Some? then [parse(line).value] else []) + EventsOf(b, parse)
    decreases |b|
  {
    hide EventsOf;
    assert Bare(line) == line;
    if b == [] {
      assert a + [line] + b == a + [line];
      EventsOfOneMore(a, line, parse);
      NoEvents(parse);
    } else {
      var n := |b| - 1;
      assert a + [line] + b == a + [line] + b[..n] + [b[n]] && b == b[..n] + [b[n]];
      EventsAreInOrder(a, line, b[..n], parse);
      EventsOfOneMore(a + [line] + b[..n], b[n], parse);
      EventsOfOneMore(b[..n], b[n], parse);
    }
  }
}
