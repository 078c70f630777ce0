/** Each session by itself: what was done to it, and nothing else, is what it is. */
module SessionHistory {
  import opened Text
  import opened Sessions

  // ── Signing out

  /** No session is created under this identifier. */
  predicate NotCreated<D, R>(run: seq<Timed<D, R>>, id: Id) {
    forall i :: 0 <= i < |run| && run[i].op.Create? ==> run[i].op.id != id
  }

  /** Whoever asks for this session, or for its desk, or wants to change it, is told
      that there is none. */
  predicate Refused<D, R>(s: Store<D>, run: seq<Timed<D, R>>, id: Id)
    decreases |run|
  {
    run != [] ==>
      var (next, answer) := Do(s, run[0].op, run[0].now);
      && (run[0].op.Get? && run[0].op.id == id ==> answer == Found(None))
      && ((run[0].op.Update? || run[0].op.WithDesk?) && run[0].op.id == id ==> answer == Said(None))
      && Refused(next, run[1..], id)
  }

  predicate Absent<D>(s: Store<D>, id: Id) { id !in s.sessions && id !in s.desks }

  lemma RemovedIsAbsent<D, R>(s: Store<D>, op: Op<D, R>, now: int)
    requires op.Remove?
    ensures Absent(Do(s, op, now).0, op.id)
  {
  }

  lemma StaysAbsent<D, R>(s: Store<D>, op: Op<D, R>, now: int, id: Id)
    requires Absent(s, id) && (op.Create? ==> op.id != id)
    ensures Absent(Do(s, op, now).0, id)
    ensures op.Get? && op.id == id ==> Do(s, op, now).1 == Found(None)
    ensures (op.Update? || op.WithDesk?) && op.id == id ==> Do(s, op, now).1 == Said(None)
  {
  }

  lemma {:induction false} AbsentIsRefused<D, R>(s: Store<D>, run: seq<Timed<D, R>>, id: Id)
    requires Absent(s, id) && NotCreated(run, id)
    ensures Refused(s, run, id) && Absent(After(s, run), id)
    decreases |run|
  {
    hide Do, Absent;
    if run != [] {
      StaysAbsent(s, run[0].op, run[0].now, id);
      AbsentIsRefused(Do(s, run[0].op, run[0].now).0, run[1..], id);
    }
  }

  /** Once removed, a session is gone for everyone until one is created again under
      its identifier, whatever else happens and whatever the clock does; and that
      one starts with a blank desk. */
  lemma RemovedIsGone<D, R>(s: Store<D>, op: Op<D, R>, now: int, run: seq<Timed<D, R>>, again: Op<D, R>, later: int)
    requires op.Remove? && NotCreated(run, op.id)
    requires again.Create? && again.id == op.id
    ensures var t := Do(s, op, now).0;
      && Refused(t, run, op.id)
      && var u := Do(After(t, run), again, later).0;
         && op.id in u.sessions && u.sessions[op.id] == again.session
         && op.id !in u.desks && DeskOf(u, op.id) == u.blank == s.blank
  {
    hide Do;
    var t := Do(s, op, now).0;
    RemovedIsAbsent(s, op, now);
    AbsentIsRefused(t, run, op.id);
    CreatedIsHeld(After(t, run), again, later);
    BlankStays(s, op, now);
    BlankStaysSo(t, run);
  }

  lemma CreatedIsHeld<D, R>(s: Store<D>, op: Op<D, R>, now: int)
    requires op.Create?
    ensures var t := Do(s, op, now).0; op.id in t.sessions && t.sessions[op.id] == op.session && t.desks == s.desks && t.blank == s.blank
  {
  }

  lemma BlankStays<D, R>(s: Store<D>, op: Op<D, R>, now: int)
    ensures Do(s, op, now).0.blank == s.blank
  {
  }

  lemma {:induction false} BlankStaysSo<D, R>(s: Store<D>, run: seq<Timed<D, R>>)
    ensures After(s, run).blank == s.blank
    decreases |run|
  {
    hide Do;
    if run != [] {
      BlankStays(s, run[0].op, run[0].now);
      BlankStaysSo(Do(s, run[0].op, run[0].now).0, run[1..]);
    }
  }

  // ── Others

  /** Nothing that is done to one session touches another, or its desk; and a sweep
      touches none that lives. */
  lemma OthersAreUntouched<D, R>(s: Store<D>, op: Op<D, R>, now: int, other: Id)
    requires if op.Sweep? then Live(s, other, now) else op.id != other
    ensures var t := Do(s, op, now).0;
      && (other in t.sessions <==> other in s.sessions)
      && (other in s.sessions ==> t.sessions[other] == s.sessions[other])
      && (other in t.desks <==> other in s.desks)
      && (other in s.desks ==> t.desks[other] == s.desks[other])
  {
  }

  // ── What a session is

  /** What was done to one session, one thing after the other. */
  function Became<D, R>(session: Option<Session>, run: seq<Timed<D, R>>, id: Id): Option<Session>
    decreases |run|
  {
    if run == [] then session
    else
      match run[0].op
      case Create(i, given) => Became(if i == id then Some(given) else session, run[1..], id)
      case Remove(i) => Became(if i == id then None else session, run[1..], id)
      case Update(i, change) =>
        Became(if i == id && session.Some? then Some(change(session.value).0) else session, run[1..], id)
      case _ => Became(session, run[1..], id)
  }

  /** The clock does not go back, and no update wakes the session. */
  ghost predicate Steady<D, R(!new)>(run: seq<Timed<D, R>>, id: Id, clock: int)
    decreases |run|
  {
    run != [] ==>
      var Timed(now, op) := run[0];
      && clock <= now
      && (op.Update? && op.id == id ==> WakesNone(op.change, now))
      && Steady(run[1..], id, now)
  }

  /** For whoever asks now, the store holds this session. */
  predicate Holds<D>(s: Store<D>, id: Id, session: Option<Session>, clock: int) {
    && (Live(s, id, clock) <==> session.Some? && session.value.expiresAt > clock)
    && (Live(s, id, clock) ==> s.sessions[id] == session.value)
  }

  lemma StillHolds<D, R(!new)>(s: Store<D>, op: Op<D, R>, now: int, id: Id, session: Option<Session>)
    requires Holds(s, id, session, now) && (op.Update? && op.id == id ==> WakesNone(op.change, now))
    ensures Holds(Do(s, op, now).0, id, Became(session, [Timed(now, op)], id), now)
  {
    assert [Timed(now, op)][1..] == [];
  }

  lemma {:induction false} BecameFirst<D, R>(session: Option<Session>, run: seq<Timed<D, R>>, id: Id)
    requires run != []
    ensures Became(session, run, id) == Became(Became(session, [run[0]], id), run[1..], id)
  {
    assert [run[0]][1..] == [];
  }

  /** Any session, at any moment of any run, however often the store was swept: who
      asks for it is given what was made of it by its creation and its own updates
      if it has not been removed and has not expired, and nothing otherwise. */
  lemma {:induction false} SessionIsItsHistory<D, R(!new)>(s: Store<D>, run: seq<Timed<D, R>>, id: Id,
                                                           session: Option<Session>, clock: int, now: int)
    requires Holds(s, id, session, clock) && Steady(run, id, clock) && LastTime(run, clock) <= now
    ensures var made := Became(session, run, id);
            Do(After(s, run), Op<D, R>.Get(id), now).1
              == Found(if made.Some? && made.value.expiresAt > now then made else None)
    decreases |run|
  {
    hide Do, WakesNone, Became;
    if run == [] {
      NothingBecame<D, R>(session, id);
      AskedLater<D, R>(s, id, session, clock, now);
    } else {
      var Timed(t, op) := run[0];
      assert LastTime(run, clock) == LastTime(run[1..], t);
      HoldsLater(s, id, session, clock, t);
      StillHolds(s, op, t, id, session);
      BecameFirst(session, run, id);
      assert [run[0]] == [Timed(t, op)];
      SessionIsItsHistory(Do(s, op, t).0, run[1..], id, Became(session, [run[0]], id), t, now);
    }
  }

  lemma HoldsLater<D>(s: Store<D>, id: Id, session: Option<Session>, clock: int, now: int)
    requires Holds(s, id, session, clock) && clock <= now
    ensures Holds(s, id, session, now)
  {
  }

  lemma NothingBecame<D, R>(session: Option<Session>, id: Id)
    ensures Became<D, R>(session, [], id) == session
  {
  }

  lemma AskedLater<D, R>(s: Store<D>, id: Id, session: Option<Session>, clock: int, now: int)
    requires Holds(s, id, session, clock) && clock <= now
    ensures Do(s, Op<D, R>.Get(id), now).1 == Found(if session.Some? && session.value.expiresAt > now then session else None)
  {
  }

  /** An update of a held session answers with what the change says of it. */
  lemma UpdateAnswers<D, R(!new)>(s: Store<D>, run: seq<Timed<D, R>>, id: Id, session: Option<Session>, clock: int,
                                  change: Session -> (Session, R))
    requires Holds(s, id, session, clock) && Steady(run, id, clock)
    requires Live(After(s, run), id, LastTime(run, clock))
    ensures var made := Became(session, run, id);
            made.Some? && Do(After(s, run), Update(id, change), LastTime(run, clock)).1 == Said(Some(change(made.value).1))
  {
    hide After, Became, Steady, WakesNone;
    SessionIsItsHistory(s, run, id, session, clock, LastTime(run, clock));
  }

  /** A use of the desk of a live session answers with what the use says of the desk
      that the uses before made. */
  lemma DeskAnswers<D, R(!new)>(s: Store<D>, run: seq<Timed<D, R>>, id: Id, clock: int, use: D -> (D, R))
    requires Lasts(run, id, clock) && Live(After(s, run), id, LastTime(run, clock))
    ensures Do(After(s, run), WithDesk(id, use), LastTime(run, clock)).1
         == Said(Some(use(Used(DeskOf(s, id), run, id)).1))
  {
    hide After, Used, Lasts;
    DeskIsItsHistory(s, run, id, clock);
  }
}
