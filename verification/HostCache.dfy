/** What each host name resolved to, remembered for a short time, and the
    resolutions that fill it: several may be waiting for the Core at once. Times
    are nanoseconds of the machine's monotonic clock. */
module HostCache {
  import opened Text

  type Host = string

  const TTL := 5_000_000_000
  const ROOM := 256

  datatype Endpoint = Endpoint(
    endpointId: string,
    binding: Option<string>,
    state: string,
    bindingEnabled: bool,
    revision: string,
    instanceName: string,
    host: Host)

  datatype Resolution =
    | Serve(endpoint: Endpoint)
    | Unknown
    | Disabled(endpoint: Endpoint)
    | Unverified
    | CoreDown

  /** What comes back from the Core: nothing, or a status and a body that may or
      may not be an endpoint. */
  datatype Reply = NoReply | Replied(status: nat, body: Option<Endpoint>)

  function Read(reply: Reply, host: Host): Resolution {
    match reply
    case NoReply => CoreDown
    case Replied(status, body) =>
      if status == 404 then Unknown
      else if 200 <= status < 300 && body.Some? then
        var e := body.value.(host := host);
        if e.state == "active" then Serve(e)
        else if e.state == "disabled" then Disabled(e)
        else Unverified
      else CoreDown
  }

  datatype Entry = Entry(at: int, answer: Resolution)

  type Cache = map<Host, Entry>

  predicate Recent(e: Entry, now: int) { now - e.at < TTL }

  function Hit(c: Cache, host: Host, now: int): Option<Resolution> {
    if host in c && Recent(c[host], now) then Some(c[host].answer) else None
  }

  function RecentOnly(c: Cache, now: int): Cache {
    map host | host in c && Recent(c[host], now) :: c[host]
  }

  function MadeRoom(c: Cache, now: int): Cache {
    if |c| >= ROOM then RecentOnly(c, now) else c
  }

  function Stored(c: Cache, host: Host, answer: Resolution, now: int): Cache {
    var kept := MadeRoom(c, now);
    if |kept| >= ROOM && host !in kept then kept else kept[host := Entry(now, answer)]
  }

  class HostCache {
    var entries: Cache

    constructor ()
      ensures entries == map[]
    {
      entries := map[];
    }

    method Get(host: Host, now: int) returns (hit: Option<Resolution>)
      ensures hit == Hit(entries, host, now)
    {
      if host !in entries { return None; }
      var e := entries[host];
      return if now - e.at < TTL then Some(e.answer) else None;
    }

    method Put(host: Host, answer: Resolution, now: int)
      modifies this
      ensures entries == Stored(old(entries), host, answer, now)
    {
      if |entries| >= ROOM {
        entries := map h | h in entries && now - entries[h].at < TTL :: entries[h];
        assert entries == RecentOnly(old(entries), now);
      }
      if |entries| >= ROOM && host !in entries {
        return;
      }
      entries := entries[host := Entry(now, answer)];
    }

    method Clear()
      modifies this
      ensures entries == map[]
    {
      entries := map[];
    }

    /** The end of a resolution that missed: the Core has answered or failed to. */
    method Finish(host: Host, reply: Reply, now: int) returns (resolution: Resolution)
      modifies this
      ensures resolution == Read(reply, host)
      ensures entries == if resolution == CoreDown then old(entries)
                         else Stored(old(entries), host, resolution, now)
    {
      match reply {
        case NoReply =>
          resolution := CoreDown;
        case Replied(status, body) =>
          if status == 404 {
            resolution := Unknown;
          } else if 200 <= status < 300 && body.Some? {
            var e := body.value.(host := host);
            match e.state {
              case "active" => resolution := Serve(e);
              case "disabled" => resolution := Disabled(e);
              case _ => resolution := Unverified;
            }
          } else {
            resolution := CoreDown;
          }
      }
      if resolution != CoreDown {
        Put(host, resolution, now);
      }
    }
  }

  // ── One put

  lemma RecentAreFewer(c: Cache, now: int)
    ensures |RecentOnly(c, now)| <= |c|
  {
    SmallerSet(RecentOnly(c, now).Keys, c.Keys);
  }

  lemma SmallerSet<T>(a: set<T>, b: set<T>)
    requires a <= b
    ensures |a| <= |b|
  {
    assert b == a + (b - a);
  }

  lemma StoredInBound(c: Cache, host: Host, answer: Resolution, now: int)
    requires |c| <= ROOM
    ensures |Stored(c, host, answer, now)| <= ROOM
  {
    hide RecentOnly;
    var kept := MadeRoom(c, now);
    RecentAreFewer(c, now);
    var next := kept[host := Entry(now, answer)];
    assert next.Keys == kept.Keys + {host};
    if host in kept { assert next.Keys == kept.Keys; }
  }

  /** A put never takes away another host's answer that is still good, and a full
      cache stays at its bound. */
  lemma PutDropsNoRecentAnswer(c: Cache, host: Host, answer: Resolution, now: int, other: Host)
    requires |c| <= ROOM
    ensures |Stored(c, host, answer, now)| <= ROOM
    ensures other != host && other in c && Recent(c[other], now) ==>
              other in Stored(c, host, answer, now) && Stored(c, host, answer, now)[other] == c[other]
    ensures other != host && other in Stored(c, host, answer, now) ==>
              other in c && Stored(c, host, answer, now)[other] == c[other]
    ensures |c| < 256 && other in c ==> other in Stored(c, host, answer, now)
  {
    StoredInBound(c, host, answer, now);
  }

  /** The answers of other hosts that are still good. */
  function RecentOthers(c: Cache, host: Host, now: int): set<Host> {
    set other | other in c && Recent(c[other], now) && other != host
  }

  /** Whether room is made for a host: its answers that count are others'. */
  lemma RoomForHost(c: Cache, host: Host, now: int)
    requires |c| <= ROOM
    ensures var kept := MadeRoom(c, now);
            |RecentOthers(c, host, now)| < ROOM <==> |kept| < ROOM || host in kept
  {
    var kept := MadeRoom(c, now);
    var others := RecentOthers(c, host, now);
    RecentAreFewer(c, now);
    if host in kept {
      SmallerSet(others, c.Keys - {host});
    } else if |c| < ROOM {
      SmallerSet(others, c.Keys);
    } else {
      assert kept.Keys == others;
    }
  }

  /** A new answer is refused exactly when the room is taken by good answers of
      other hosts. */
  lemma PutIsRefusedExactly(c: Cache, host: Host, answer: Resolution, now: int)
    requires |c| <= ROOM
    ensures Hit(Stored(c, host, answer, now), host, now) == Some(answer) <==> |RecentOthers(c, host, now)| < ROOM
    ensures |RecentOthers(c, host, now)| >= ROOM ==> host !in Stored(c, host, answer, now)
  {
    hide RecentOthers, MadeRoom;
    RoomForHost(c, host, now);
  }

  // ── Runs with several resolutions at once

  /** A question the Core has not answered, and how many times the cache had been
      cleared when it was asked. */
  datatype Question = Question(host: Host, asked: nat)

  datatype System = System(cache: Cache, waiting: seq<Question>, clears: nat)

  const EMPTY := System(map[], [], 0)

  datatype Step =
    | Ask(host: Host, now: int)
    | CoreReplies(which: nat, reply: Reply, now: int)
    | Forget

  predicate Possible(s: System, step: Step) {
    step.CoreReplies? ==> step.which < |s.waiting|
  }

  function Next(s: System, step: Step): System
    requires Possible(s, step)
  {
    match step
    case Ask(host, now) =>
      if Hit(s.cache, host, now).Some? then s
      else s.(waiting := s.waiting + [Question(host, s.clears)])
    case CoreReplies(which, reply, now) =>
      var host := s.waiting[which].host;
      var answer := Read(reply, host);
      s.(waiting := s.waiting[..which] + s.waiting[which + 1..],
         cache := if answer == CoreDown then s.cache else Stored(s.cache, host, answer, now))
    case Forget => s.(cache := map[], clears := s.clears + 1)
  }

  /** A run, written from its last step back. */
  predicate Happens(s: System, run: seq<Step>)
    decreases |run|, 0
  {
    run != [] ==>
      var before := run[..|run| - 1];
      Happens(s, before) && Possible(After(s, before), run[|run| - 1])
  }

  function After(s: System, run: seq<Step>): System
    requires Happens(s, run)
    decreases |run|, 1
  {
    if run == [] then s else Next(After(s, run[..|run| - 1]), run[|run| - 1])
  }

  /** The `i`th step of the run is the Core answering a question about `host`
      with what the entry holds, and nothing was forgotten since. */
  predicate CameFrom(run: seq<Step>, i: nat, host: Host, e: Entry)
    requires Happens(EMPTY, run)
  {
    && i < |run|
    && Answers(run, i, host)
    && Read(run[i].reply, host) == e.answer != CoreDown
    && run[i].now == e.at
    && NothingForgotten(run, i + 1)
  }

  predicate Answers(run: seq<Step>, i: nat, host: Host)
    requires Happens(EMPTY, run) && i < |run|
  {
    && Happens(EMPTY, run[..i])
    && run[i].CoreReplies?
    && run[i].which < |After(EMPTY, run[..i]).waiting|
    && After(EMPTY, run[..i]).waiting[run[i].which].host == host
  }

  predicate NothingForgotten(run: seq<Step>, from: nat) {
    forall j :: from <= j < |run| ==> !run[j].Forget?
  }

  ghost predicate Sourced(run: seq<Step>, host: Host)
    requires Happens(EMPTY, run)
  {
    var c := After(EMPTY, run).cache;
    host in c ==> exists i: nat :: CameFrom(run, i, host, c[host])
  }

  lemma StillCameFrom(run: seq<Step>, step: Step, i: nat, host: Host, e: Entry)
    requires Happens(EMPTY, run) && Possible(After(EMPTY, run), step) && !step.Forget?
    requires CameFrom(run, i, host, e)
    ensures Happens(EMPTY, run + [step]) && CameFrom(run + [step], i, host, e)
  {
    hide Next, Read, After, Happens;
    HappensMore(run, step);
    assert (run + [step])[..i] == run[..i];
  }

  lemma HappensMore(run: seq<Step>, step: Step)
    requires Happens(EMPTY, run) && Possible(After(EMPTY, run), step)
    ensures Happens(EMPTY, run + [step]) && After(EMPTY, run + [step]) == Next(After(EMPTY, run), step)
  {
    hide Next, Possible;
    assert (run + [step])[..|run|] == run;
  }

  lemma NewCameFrom(run: seq<Step>, step: Step)
    requires Happens(EMPTY, run) && Possible(After(EMPTY, run), step) && step.CoreReplies?
    ensures var host := After(EMPTY, run).waiting[step.which].host;
            var answer := Read(step.reply, host);
            answer != CoreDown ==>
              Happens(EMPTY, run + [step]) && CameFrom(run + [step], |run|, host, Entry(step.now, answer))
  {
    hide Next, Read, After, Happens;
    HappensMore(run, step);
    assert (run + [step])[..|run|] == run;
  }

  lemma {:induction false} EntriesAreSourced(run: seq<Step>, host: Host)
    requires Happens(EMPTY, run)
    ensures |After(EMPTY, run).cache| <= ROOM && Sourced(run, host)
    decreases |run|
  {
    hide Read, CameFrom, Stored;
    if run != [] {
      var before, step := run[..|run| - 1], run[|run| - 1];
      EntriesAreSourced(before, host);
      var was, now := After(EMPTY, before), After(EMPTY, run);
      assert before + [step] == run;
      match step
      case Forget =>
      case Ask(h, t) => CarryOver(before, step, host);
      case CoreReplies(which, reply, t) =>
        var asked := was.waiting[which].host;
        var answer := Read(reply, asked);
        PutDropsNoRecentAnswer(was.cache, asked, answer, t, host);
        NewCameFrom(before, step);
        KeptOrNew(was.cache, asked, answer, t);
        CarryOver(before, step, host);
    }
  }

  lemma KeptOrNew(c: Cache, host: Host, answer: Resolution, now: int)
    ensures host in Stored(c, host, answer, now) ==> Stored(c, host, answer, now)[host] == Entry(now, answer)
  {
  }

  /** An entry that a step leaves as it was keeps its source. */
  lemma CarryOver(run: seq<Step>, step: Step, host: Host)
    requires Happens(EMPTY, run) && Possible(After(EMPTY, run), step) && !step.Forget? && Sourced(run, host)
    ensures Happens(EMPTY, run + [step])
    ensures var was := After(EMPTY, run).cache;
            host in was ==> exists i: nat :: CameFrom(run + [step], i, host, was[host])
  {
    hide Read, CameFrom, Stored, After, Happens, Next;
    HappensMore(run, step);
    var was := After(EMPTY, run).cache;
    if host in was {
      var i: nat :| CameFrom(run, i, host, was[host]);
      StillCameFrom(run, step, i, host, was[host]);
    }
  }

  predicate Names(r: Resolution, host: Host) {
    r.Serve? || r.Disabled? ==> r.endpoint.host == host
  }

  /** In every run, with any number of resolutions under way: the cache stays in
      its bound, and what it answers is what the Core said about that same host,
      less than the time to live ago and after the last clearing. It never
      answers that the Core is down. */
  lemma HitsAreRecentAnswers(run: seq<Step>, host: Host, now: int)
    requires Happens(EMPTY, run)
    ensures var c := After(EMPTY, run).cache;
      && |c| <= ROOM
      && (Hit(c, host, now).Some? ==>
            && Hit(c, host, now).value != CoreDown
            && Names(Hit(c, host, now).value, host)
            && exists i: nat ::
                 && CameFrom(run, i, host, c[host])
                 && now - run[i].now < TTL
                 && Hit(c, host, now).value == Read(run[i].reply, host))
  {
    hide After, Happens, Answers, NothingForgotten;
    EntriesAreSourced(run, host);
  }

  // ── What the Core said

  /** What the Core must have said for this to be the answer. */
  predicate SaidBy(reply: Reply, host: Host, r: Resolution) {
    match r
    case Serve(e) =>
      && reply.Replied? && 200 <= reply.status <= 299 && reply.body.Some?
      && reply.body.value.state == "active" && e == reply.body.value.(host := host)
    case Disabled(e) =>
      && reply.Replied? && 200 <= reply.status <= 299 && reply.body.Some?
      && reply.body.value.state == "disabled" && e == reply.body.value.(host := host)
    case Unverified =>
      && reply.Replied? && 200 <= reply.status <= 299 && reply.body.Some?
      && reply.body.value.state != "active" && reply.body.value.state != "disabled"
    case Unknown => reply.Replied? && reply.status == 404
    case CoreDown =>
      reply.NoReply? || (reply.status != 404 && (reply.status < 200 || reply.status > 299 || reply.body.None?))
  }

  lemma ReadIsWhatWasSaid(reply: Reply, host: Host, r: Resolution)
    ensures Read(reply, host) == r <==> SaidBy(reply, host, r)
  {
  }

  /** In every run, at most 256 hosts are remembered; a host is served only if the
      Core said, about that host and less than five seconds ago, that its endpoint is
      active, and nothing was forgotten since; and likewise for what else the cache
      answers. */
  lemma HitsAreWhatTheCoreSaid(run: seq<Step>, host: Host, now: int)
    requires Happens(EMPTY, run)
    ensures var c := After(EMPTY, run).cache; var hit := Hit(c, host, now);
      && |c| <= 256
      && (hit.Some? ==>
            && !hit.value.CoreDown?
            && exists i: nat :: i < |run| && Answers(run, i, host) && SaidBy(run[i].reply, host, hit.value)
                                && now - run[i].now < 5_000_000_000 && NothingForgotten(run, i + 1))
  {
    hide After, Happens, NothingForgotten, Read, SaidBy;
    HitsAreRecentAnswers(run, host, now);
    var c := After(EMPTY, run).cache;
    if Hit(c, host, now).Some? {
      var i: nat :| && CameFrom(run, i, host, c[host]) && now - run[i].now < TTL
                    && Hit(c, host, now).value == Read(run[i].reply, host);
      ReadIsWhatWasSaid(run[i].reply, host, Hit(c, host, now).value);
    }
  }

  /** An answer of the Core that is one is served for five seconds from then on, if
      good answers of other hosts do not take all the room. */
  lemma AnswerIsServed(s: System, step: Step, later: int)
    requires Possible(s, step) && step.CoreReplies? && |s.cache| <= 256
    ensures var host := s.waiting[step.which].host; var answer := Read(step.reply, host); var c := Next(s, step).cache;
      && (answer == CoreDown ==> c == s.cache)
      && (answer != CoreDown && |RecentOthers(s.cache, host, step.now)| < 256 ==>
            (Hit(c, host, later) == Some(answer) <==> later < step.now + 5_000_000_000))
  {
    hide Read, RecentOthers, MadeRoom;
    RoomForHost(s.cache, s.waiting[step.which].host, step.now);
  }

  /** Who asks is answered from the cache, or waits for the Core: nothing else. */
  lemma AskingWaitsExactly(s: System, host: Host, now: int)
    ensures var t := Next(s, Ask(host, now));
      && t.cache == s.cache && t.clears == s.clears
      && t.waiting == if Hit(s.cache, host, now).Some? then s.waiting else s.waiting + [Question(host, s.clears)]
  {
  }

  // ── Clearing and questions under way

  /** A run after which the cache answers for `host` with the reply to a question
      asked before the clearing. */
  predicate ServesOld(s: System, host: Host, run: seq<Step>)
    requires Happens(s, run)
  {
    && run != [] && run[|run| - 1].CoreReplies?
    && var was := After(s, run[..|run| - 1]);
       var question := was.waiting[run[|run| - 1].which];
       && question.host == host && question.asked < s.clears
       && Hit(After(s, run).cache, host, run[|run| - 1].now) == Some(Read(run[|run| - 1].reply, host))
  }

  predicate AskedBefore(s: System, host: Host, clears: nat) {
    exists w :: 0 <= w < |s.waiting| && s.waiting[w].host == host && s.waiting[w].asked < clears
  }

  lemma NextAsksAnew(s: System, step: Step, host: Host, clears: nat)
    requires Possible(s, step) && clears <= s.clears && AskedBefore(Next(s, step), host, clears)
    ensures AskedBefore(s, host, clears)
  {
    hide Read, Stored;
    var t := Next(s, step);
    var w :| 0 <= w < |t.waiting| && t.waiting[w].host == host && t.waiting[w].asked < clears;
    match step
    case Ask(h, now) => assert w < |s.waiting| ==> s.waiting[w] == t.waiting[w];
    case CoreReplies(which, reply, now) =>
      assert t.waiting[w] == s.waiting[if w < which then w else w + 1];
    case Forget =>
  }

  lemma {:induction false} RunAsksAnew(s: System, run: seq<Step>, host: Host)
    requires Happens(s, run)
    ensures s.clears <= After(s, run).clears
    ensures AskedBefore(After(s, run), host, s.clears) ==> AskedBefore(s, host, s.clears)
    decreases |run|
  {
    hide AskedBefore, Next;
    if run != [] {
      var before, step := run[..|run| - 1], run[|run| - 1];
      RunAsksAnew(s, before, host);
      ClearsOnlyGrow(After(s, before), step);
      if AskedBefore(Next(After(s, before), step), host, s.clears) {
        NextAsksAnew(After(s, before), step, host, s.clears);
      }
    }
  }

  lemma ClearsOnlyGrow(s: System, step: Step)
    requires Possible(s, step)
    ensures s.clears <= Next(s, step).clears
  {
  }

  predicate InOrder(s: System) {
    forall w :: 0 <= w < |s.waiting| ==> s.waiting[w].asked <= s.clears
  }

  lemma NextInOrder(s: System, step: Step)
    requires Possible(s, step) && InOrder(s)
    ensures InOrder(Next(s, step))
  {
    hide Read, Stored, Hit;
  }

  lemma {:induction false} AlwaysInOrder(run: seq<Step>)
    requires Happens(EMPTY, run)
    ensures InOrder(After(EMPTY, run))
    decreases |run|
  {
    hide Next, InOrder;
    if run == [] {
      assert InOrder(EMPTY) by { NothingWaits(); }
    } else {
      var before := run[..|run| - 1];
      AlwaysInOrder(before);
      NextInOrder(After(EMPTY, before), run[|run| - 1]);
    }
  }

  lemma NothingWaits()
    ensures InOrder(EMPTY)
  {
  }

  /** A clearing does not reach a question already under way: at any point of any
      run, what was asked before it can be served after it exactly when such a
      question is waiting. */
  lemma ClearingReachesExactly(history: seq<Step>, host: Host)
    requires Happens(EMPTY, history)
    ensures var was := After(EMPTY, history);
            var s := Next(was, Forget);
      (exists run :: Happens(s, run) && ServesOld(s, host, run))
      <==> (exists w :: 0 <= w < |was.waiting| && was.waiting[w].host == host)
  {
    hide After, Happens;
    AlwaysInOrder(history);
    var was := After(EMPTY, history);
    var s := Next(was, Forget);
    if run :| Happens(s, run) && ServesOld(s, host, run) {
      OldIsWaiting(s, host, run);
      assert exists w :: 0 <= w < |s.waiting| && s.waiting[w].host == host;
    }
    if w :| 0 <= w < |was.waiting| && was.waiting[w].host == host {
      OldReplyServed(s, w);
    }
  }

  lemma OldIsWaiting(s: System, host: Host, run: seq<Step>)
    requires Happens(s, run) && ServesOld(s, host, run)
    ensures AskedBefore(s, host, s.clears)
  {
    hide Next, Read, Stored;
    var before := run[..|run| - 1];
    RunAsksAnew(s, before, host);
    var which := run[|run| - 1].which;
    assert 0 <= which < |After(s, before).waiting|;
  }

  lemma OldReplyServed(s: System, w: nat)
    requires w < |s.waiting| && s.waiting[w].asked < s.clears && s.cache == map[]
    ensures exists run :: Happens(s, run) && ServesOld(s, s.waiting[w].host, run)
  {
    var run := [CoreReplies(w, Replied(404, None), 0)];
    assert run[..0] == [] && Happens(s, []);
    assert Happens(s, run) && After(s, run) == Next(s, run[0]);
    assert ServesOld(s, s.waiting[w].host, run);
  }
}
