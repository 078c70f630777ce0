/** The sessions a Workspace holds for its members and the windows of each one,
    under one lock: every operation is one step. Times are the machine's
    monotonic clock; identifiers are opaque. */
module Sessions {
  import opened Text

  type Id = string

  datatype Session = Session(
    accessToken: string,
    displayName: string,
    email: string,
    mustChangePassword: bool,
    mfaRequired: bool,
    expiresAt: int,
    endpoint: Option<(string, string)>,
    locked: bool,
    unlockFailures: nat)

  datatype Store<!D> = Store(sessions: map<Id, Session>, desks: map<Id, D>, blank: D)

  /** What callers ask. A change is given as what it does to the thing changed
      and what it says. */
  datatype Op<!D, !R> =
    | Create(id: Id, session: Session)
    | Get(id: Id)
    | Update(id: Id, change: Session -> (Session, R))
    | Remove(id: Id)
    | Sweep
    | WithDesk(id: Id, use: D -> (D, R))

  datatype Answer<!R> = Nothing | Found(session: Option<Session>) | Said(result: Option<R>)

  predicate Live<D>(s: Store<D>, id: Id, now: int) {
    id in s.sessions && s.sessions[id].expiresAt > now
  }

  /** The desk of a session: its own, or a new one. */
  function DeskOf<D>(s: Store<D>, id: Id): D {
    if id in s.desks then s.desks[id] else s.blank
  }

  function Swept<D>(s: Store<D>, now: int): Store<D> {
    s.(sessions := map id | id in s.sessions && s.sessions[id].expiresAt > now :: s.sessions[id],
       desks := map id | id in s.desks && Live(s, id, now) :: s.desks[id])
  }

  function Do<D, R>(s: Store<D>, op: Op<D, R>, now: int): (Store<D>, Answer<R>) {
    match op
    case Create(id, session) => (s.(sessions := s.sessions[id := session]), Nothing)
    case Get(id) => (s, Found(if Live(s, id, now) then Some(s.sessions[id]) else None))
    case Update(id, change) =>
      if id !in s.sessions then (s, Said(None))
      else
        var (session, said) := change(s.sessions[id]);
        (s.(sessions := s.sessions[id := session]), Said(Some(said)))
    case Remove(id) => (s.(sessions := s.sessions - {id}, desks := s.desks - {id}), Nothing)
    case Sweep => (Swept(s, now), Nothing)
    case WithDesk(id, use) =>
      if !Live(s, id, now) then (s, Said(None))
      else
        var (desk, said) := use(DeskOf(s, id));
        (s.(desks := s.desks[id := desk]), Said(Some(said)))
  }

  class SessionStore<!D> {
    var sessions: map<Id, Session>
    var desks: map<Id, D>
    const blank: D

    function State(): Store<D>
      reads this
    {
      Store(sessions, desks, blank)
    }

    constructor (blank: D)
      ensures State() == Store(map[], map[], blank)
    {
      this.blank := blank;
      sessions, desks := map[], map[];
    }

    /** `id` is the new random identifier. */
    method Create(id: Id, session: Session)
      modifies this`sessions
      ensures State() == Do<D, ()>(old(State()), Op.Create(id, session), 0).0
    {
      sessions := sessions[id := session];
    }

    method Get(id: Id, now: int) returns (found: Option<Session>)
      ensures Found(found) == Do<D, ()>(State(), Op.Get(id), now).1
    {
      if id !in sessions { return None; }
      var session := sessions[id];
      return if session.expiresAt > now then Some(session) else None;
    }

    method Update<R>(id: Id, change: Session -> (Session, R)) returns (said: Option<R>)
      modifies this`sessions
      ensures (State(), Said(said)) == Do(old(State()), Op.Update(id, change), 0)
    {
      if id !in sessions { return None; }
      var (session, result) := change(sessions[id]);
      sessions := sessions[id := session];
      return Some(result);
    }

    method Remove(id: Id)
      modifies this`sessions, this`desks
      ensures State() == Do<D, ()>(old(State()), Op.Remove(id), 0).0
    {
      sessions := sessions - {id};
      desks := desks - {id};
    }

    /** Expired sessions go first, and then the desks left without a session. */
    method Sweep(now: int)
      modifies this`sessions, this`desks
      ensures State() == Do<D, ()>(old(State()), Op.Sweep, now).0
    {
      sessions := map id | id in sessions && sessions[id].expiresAt > now :: sessions[id];
      desks := map id | id in desks && id in sessions :: desks[id];
      var swept := Swept(old(State()), now);
      assert sessions == swept.sessions && desks == swept.desks;
    }

    method WithDesk<R>(id: Id, use: D -> (D, R), now: int) returns (said: Option<R>)
      modifies this`desks
      ensures (State(), Said(said)) == Do(old(State()), Op.WithDesk(id, use), now)
    {
      var live := id in sessions && sessions[id].expiresAt > now;
      if !live { return None; }
      if id !in desks { desks := desks[id := blank]; }
      var (desk, result) := use(desks[id]);
      desks := desks[id := desk];
      assert desks == old(desks)[id := desk];
      return Some(result);
    }
  }

  // ── Runs

  datatype Timed<!D, !R> = Timed(now: int, op: Op<D, R>)

  function After<D, R>(s: Store<D>, run: seq<Timed<D, R>>): Store<D>
    decreases |run|
  {
    if run == [] then s else After(Do(s, run[0].op, run[0].now).0, run[1..])
  }

  /** What the callers of `get` and `with_desk` are told, in order. */
  function Heard<D, R>(s: Store<D>, run: seq<Timed<D, R>>): seq<Answer<R>>
    decreases |run|
  {
    if run == [] then []
    else
      var (next, answer) := Do(s, run[0].op, run[0].now);
      (if run[0].op.Get? || run[0].op.WithDesk? then [answer] else []) + Heard(next, run[1..])
  }

  function Unswept<D, R>(run: seq<Timed<D, R>>): seq<Timed<D, R>>
    decreases |run|
  {
    if run == [] then []
    else if run[0].op.Sweep? then Unswept(run[1..])
    else [run[0]] + Unswept(run[1..])
  }

  /** No desk without a session. */
  predicate Tidy<D>(s: Store<D>) { s.desks.Keys <= s.sessions.Keys }

  lemma DoKeepsTidy<D, R>(s: Store<D>, op: Op<D, R>, now: int)
    requires Tidy(s)
    ensures Tidy(Do(s, op, now).0)
  {
  }

  /** In every reachable state, whatever the clock does and however identifiers
      are chosen, each desk belongs to a session. */
  lemma {:induction false} DesksBelongToSessions<D, R>(s: Store<D>, run: seq<Timed<D, R>>)
    requires Tidy(s)
    ensures Tidy(After(s, run))
    decreases |run|
  {
    hide Do;
    if run != [] {
      DoKeepsTidy(s, run[0].op, run[0].now);
      DesksBelongToSessions(Do(s, run[0].op, run[0].now).0, run[1..]);
    }
  }

  // ── Sweeping is invisible

  /** The update leaves every expired session expired. */
  ghost predicate WakesNone<R(!new)>(change: Session -> (Session, R), now: int) {
    forall session: Session :: session.expiresAt <= now ==> change(session).0.expiresAt <= now
  }

  /** No desk is left over under this identifier. */
  predicate Fresh<D>(s: Store<D>, id: Id, now: int) { id in s.desks ==> Live(s, id, now) }

  /** The clock does not go back, no identifier is given out again while the desk
      of its expired session is held, and no update brings such a session back. */
  ghost predicate Orderly<D, R(!new)>(s: Store<D>, run: seq<Timed<D, R>>, clock: int)
    decreases |run|
  {
    run != [] ==>
      var Timed(now, op) := run[0];
      && clock <= now
      && (op.Create? ==> Fresh(s, op.id, now))
      && (op.Update? ==> WakesNone(op.change, now))
      && Orderly(if op.Sweep? then s else Do(s, op, now).0, run[1..], now)
  }

  /** Two stores no caller can tell apart from now on: `s` was never swept. */
  ghost predicate Alike<D(!new)>(s: Store<D>, t: Store<D>, clock: int) {
    && s.blank == t.blank && Tidy(s) && Tidy(t)
    && t.sessions.Keys <= s.sessions.Keys && t.desks.Keys <= s.desks.Keys
    && forall id :: AlikeAt(s, t, id, clock)
  }

  ghost predicate AlikeAt<D>(s: Store<D>, t: Store<D>, id: Id, clock: int) {
    && (Live(s, id, clock) <==> Live(t, id, clock))
    && (Live(s, id, clock) ==> s.sessions[id] == t.sessions[id] && DeskOf(s, id) == DeskOf(t, id))
  }

  lemma LaterAlike<D(!new)>(s: Store<D>, t: Store<D>, clock: int, now: int)
    requires Alike(s, t, clock) && clock <= now
    ensures Alike(s, t, now)
  {
    forall id ensures AlikeAt(s, t, id, now) {
      assert AlikeAt(s, t, id, clock);
    }
  }

  lemma SweepAlike<D(!new)>(s: Store<D>, t: Store<D>, now: int)
    requires Alike(s, t, now)
    ensures Alike(s, Swept(t, now), now)
  {
    var u := Swept(t, now);
    forall id ensures AlikeAt(s, u, id, now) {
      assert AlikeAt(s, t, id, now);
    }
  }

  lemma DoAlike<D(!new), R(!new)>(s: Store<D>, t: Store<D>, op: Op<D, R>, now: int)
    requires Alike(s, t, now) && !op.Sweep?
    requires op.Create? ==> Fresh(s, op.id, now)
    requires op.Update? ==> WakesNone(op.change, now)
    ensures Alike(Do(s, op, now).0, Do(t, op, now).0, now)
    ensures op.Get? || op.WithDesk? ==> Do(s, op, now).1 == Do(t, op, now).1
  {
    assert AlikeAt(s, t, op.id, now);
    var u, v := Do(s, op, now).0, Do(t, op, now).0;
    forall id ensures AlikeAt(u, v, id, now) {
      assert AlikeAt(s, t, id, now);
    }
  }

  lemma {:induction false} AlikeHearAlike<D(!new), R(!new)>(s: Store<D>, t: Store<D>, run: seq<Timed<D, R>>, clock: int)
    requires Alike(s, t, clock) && Orderly(s, run, clock)
    ensures Heard(t, run) == Heard(s, Unswept(run))
    decreases |run|
  {
    hide Alike, Do, WakesNone;
    if run != [] {
      var Timed(now, op) := run[0];
      LaterAlike(s, t, clock, now);
      if op.Sweep? {
        SweepAlike(s, t, now);
        SweepIsSwept(t, op, now);
        AlikeHearAlike(s, Swept(t, now), run[1..], now);
      } else {
        DoAlike(s, t, op, now);
        AlikeHearAlike(Do(s, op, now).0, Do(t, op, now).0, run[1..], now);
        var rest := Unswept(run[1..]);
        assert ([run[0]] + rest)[1..] == rest;
      }
    }
  }

  lemma SweepIsSwept<D, R>(t: Store<D>, op: Op<D, R>, now: int)
    requires op.Sweep?
    ensures Do(t, op, now).0 == Swept(t, now)
  {
  }

  /** Sweeping is invisible: callers of `get` and `with_desk` are told the same
      with the sweeps and without them. */
  lemma SweepingIsInvisible<D(!new), R(!new)>(s: Store<D>, run: seq<Timed<D, R>>, clock: int)
    requires Tidy(s) && Orderly(s, run, clock)
    ensures Heard(s, run) == Heard(s, Unswept(run))
  {
    AlikeHearAlike(s, s, run, clock);
  }

  // ── What a desk is

  /** The desk that the uses of one identifier make, one after the other. */
  function Used<D, R>(desk: D, run: seq<Timed<D, R>>, id: Id): D
    decreases |run|
  {
    if run == [] then desk
    else Used(if run[0].op.WithDesk? && run[0].op.id == id then run[0].op.use(desk).0 else desk, run[1..], id)
  }

  /** The session is neither created again nor ended, no update brings it back
      once it has expired, and the clock does not go back. */
  ghost predicate Lasts<D, R(!new)>(run: seq<Timed<D, R>>, id: Id, clock: int)
    decreases |run|
  {
    run != [] ==>
      var Timed(now, op) := run[0];
      && clock <= now
      && (op.Create? || op.Remove? ==> op.id != id)
      && (op.Update? && op.id == id ==> WakesNone(op.change, now))
      && Lasts(run[1..], id, now)
  }

  function LastTime<D, R>(run: seq<Timed<D, R>>, clock: int): int {
    if run == [] then clock else run[|run| - 1].now
  }

  lemma GoneStaysGone<D, R(!new)>(s: Store<D>, op: Op<D, R>, now: int, id: Id)
    requires !Live(s, id, now)
    requires op.Create? || op.Remove? ==> op.id != id
    requires op.Update? && op.id == id ==> WakesNone(op.change, now)
    ensures !Live(Do(s, op, now).0, id, now)
  {
  }

  lemma {:induction false} GoneToTheEnd<D, R(!new)>(s: Store<D>, run: seq<Timed<D, R>>, id: Id, clock: int)
    requires Lasts(run, id, clock) && !Live(s, id, clock)
    ensures !Live(After(s, run), id, LastTime(run, clock))
    decreases |run|
  {
    hide Do, WakesNone;
    if run != [] {
      var Timed(now, op) := run[0];
      assert LastTime(run, clock) == LastTime(run[1..], now);
      GoneStaysGone(s, op, now, id);
      GoneToTheEnd(Do(s, op, now).0, run[1..], id, now);
    }
  }

  lemma DoKeepsDesk<D, R(!new)>(s: Store<D>, op: Op<D, R>, now: int, id: Id)
    requires Live(s, id, now)
    requires op.Create? || op.Remove? ==> op.id != id
    ensures DeskOf(Do(s, op, now).0, id) == if op.WithDesk? && op.id == id then op.use(DeskOf(s, id)).0 else DeskOf(s, id)
  {
  }

  /** A session that is live at the end has the desk its own uses made: nothing
      done to other sessions, no update and no sweep ever took it away. */
  lemma {:induction false} DeskIsItsHistory<D, R(!new)>(s: Store<D>, run: seq<Timed<D, R>>, id: Id, clock: int)
    requires Lasts(run, id, clock)
    requires Live(After(s, run), id, LastTime(run, clock))
    ensures DeskOf(After(s, run), id) == Used(DeskOf(s, id), run, id)
    decreases |run|
  {
    hide Do, WakesNone, DeskOf, Live;
    if run != [] {
      var Timed(now, op) := run[0];
      assert LastTime(run, clock) == LastTime(run, now) == LastTime(run[1..], now);
      assert Live(s, id, now) by {
        if !Live(s, id, now) { GoneToTheEnd(s, run, id, now); }
      }
      DoKeepsDesk(s, op, now, id);
      DeskIsItsHistory(Do(s, op, now).0, run[1..], id, now);
    }
  }

  ghost predicate KeepsExpiry<R(!new)>(change: Session -> (Session, R)) {
    forall session: Session :: change(session).0.expiresAt == session.expiresAt
  }

  ghost predicate Keeps<D, R(!new)>(run: seq<Timed<D, R>>, id: Id) {
    forall t <- run :: t.op.Update? && t.op.id == id ==> KeepsExpiry(t.op.change)
  }

  lemma DoKeepsExpiry<D, R(!new)>(s: Store<D>, op: Op<D, R>, now: int, id: Id)
    requires Live(s, id, now)
    requires op.Create? || op.Remove? ==> op.id != id
    requires op.Update? && op.id == id ==> KeepsExpiry(op.change)
    ensures var next := Do(s, op, now).0;
            id in next.sessions && next.sessions[id].expiresAt == s.sessions[id].expiresAt
  {
  }

  /** A session whose expiry no update moves lives exactly until then: the end of
      the run finds it, with that expiry, whenever it comes before. */
  lemma {:induction false} LivesUntilItsExpiry<D, R(!new)>(s: Store<D>, run: seq<Timed<D, R>>, id: Id, clock: int)
    requires Lasts(run, id, clock) && Keeps(run, id) && Live(s, id, clock)
    ensures var (end, last) := (After(s, run), LastTime(run, clock));
      && (Live(end, id, last) <==> s.sessions[id].expiresAt > last)
      && (Live(end, id, last) ==> end.sessions[id].expiresAt == s.sessions[id].expiresAt)
    decreases |run|
  {
    hide Do, WakesNone, KeepsExpiry;
    if run != [] {
      var Timed(now, op) := run[0];
      assert LastTime(run, clock) == LastTime(run, now) == LastTime(run[1..], now);
      assert run[0] in run && forall t <- run[1..] :: t in run;
      TimesRise(run[1..], id, now);
      if Live(s, id, now) {
        DoKeepsExpiry(s, op, now, id);
        LivesUntilItsExpiry(Do(s, op, now).0, run[1..], id, now);
      } else {
        GoneToTheEnd(s, run, id, now);
      }
    }
  }

  lemma {:induction false} TimesRise<D, R(!new)>(run: seq<Timed<D, R>>, id: Id, clock: int)
    requires Lasts(run, id, clock)
    ensures clock <= LastTime(run, clock)
    decreases |run|
  {
    if run != [] {
      TimesRise(run[1..], id, run[0].now);
      assert LastTime(run, clock) == LastTime(run[1..], run[0].now);
    }
  }

  // ── Each condition is needed

  const ALICE := Session("token", "Alice", "alice@example.org", false, false, 5, None, false, 0)

  function Longer(session: Session): (Session, int) { (session.(expiresAt := 10), 0) }

  function CountUse(desk: int): (int, int) { (desk + 1, desk) }

  lemma Steps<D, R>(s: Store<D>, first: Timed<D, R>, rest: seq<Timed<D, R>>)
    ensures Heard(s, [first] + rest)
         == (if first.op.Get? || first.op.WithDesk? then [Do(s, first.op, first.now).1] else [])
            + Heard(Do(s, first.op, first.now).0, rest)
    ensures Unswept([first] + rest) == (if first.op.Sweep? then [] else [first]) + Unswept(rest)
  {
    assert ([first] + rest)[1..] == rest;
  }

  const RENEW: Timed<int, int> := Timed(6, Create("a", ALICE.(expiresAt := 10)))
  const USE: Timed<int, int> := Timed(7, WithDesk("a", CountUse))
  const BEFORE: Store<int> := Store(map["a" := ALICE], map["a" := 1], 0)

  function SweepAt<R>(now: int): Timed<int, R> { Timed(now, Sweep) }

  lemma HeardLast<R>(s: Store<int>, change: Timed<int, R>, ask: Timed<int, R>)
    requires !change.op.Sweep? && !change.op.Get? && !change.op.WithDesk? && (ask.op.Get? || ask.op.WithDesk?)
    ensures Heard(s, [change, ask]) == [Do(Do(s, change.op, change.now).0, ask.op, ask.now).1]
    ensures Unswept([change, ask]) == [change, ask]
  {
    hide Heard, Unswept, Do;
    Steps(s, change, [ask]);
    Steps(Do(s, change.op, change.now).0, ask, []);
    NothingHeard<R>(Do(Do(s, change.op, change.now).0, ask.op, ask.now).0);
    assert [change] + [ask] == [change, ask] && [ask] + [] == [ask];
  }

  lemma NothingHeard<R>(s: Store<int>)
    ensures Heard<int, R>(s, []) == [] && Unswept<int, R>([]) == []
  {
  }

  /** The two runs, with and without the sweep. */
  lemma WithAndWithout<R>(s: Store<int>, now: int, change: Timed<int, R>, ask: Timed<int, R>)
    requires !change.op.Sweep? && !change.op.Get? && !change.op.WithDesk? && (ask.op.Get? || ask.op.WithDesk?)
    ensures Heard(s, [SweepAt(now), change, ask]) == [Do(Do(Swept(s, now), change.op, change.now).0, ask.op, ask.now).1]
    ensures Heard(s, Unswept([SweepAt(now), change, ask])) == [Do(Do(s, change.op, change.now).0, ask.op, ask.now).1]
  {
    hide Heard, Unswept;
    HeardLast(s, change, ask);
    HeardLast(Swept(s, now), change, ask);
    Steps(s, SweepAt(now), [change, ask]);
    assert [SweepAt(now)] + [change, ask] == [SweepAt(now), change, ask] && [] + [change, ask] == [change, ask];
  }

  /** A sweep, an update, and a look at the session. */
  function Waking<R>(id: Id, change: Session -> (Session, R), now: int): seq<Timed<int, R>> {
    [SweepAt(now), Timed(now, Update(id, change)), Timed(now, Get(id))]
  }

  /** In no store does the look tell whether the sweep came first. */
  ghost predicate Unnoticed<R(!new)>(change: Session -> (Session, R), now: int) {
    forall s: Store<int>, id: Id :: Tidy(s) ==> Heard(s, Waking(id, change, now)) == Heard(s, Unswept(Waking(id, change, now)))
  }

  /** An update lets a sweep before it be noticed if and only if it brings an
      expired session back. */
  lemma RevivalIsSeenExactly<R(!new)>(change: Session -> (Session, R), now: int)
    ensures Unnoticed(change, now) <==> WakesNone(change, now)
  {
    hide Heard, Unswept;
    forall s: Store<int>, id: Id
      ensures Heard(s, Waking(id, change, now)) == Heard(s, Unswept(Waking(id, change, now)))
         <==> (Live(s, id, now) || id !in s.sessions || change(s.sessions[id]).0.expiresAt <= now)
    {
      WithAndWithout(s, now, Timed(now, Update(id, change)), Timed(now, Get(id)));
    }
    if Unnoticed(change, now) {
      forall session: Session | session.expiresAt <= now ensures change(session).0.expiresAt <= now {
        var s: Store<int> := Store(map["a" := session], map[], 0);
        assert Tidy(s) && !Live(s, "a", now);
      }
    }
  }

  /** Such an update, at one run. */
  lemma RevivalIsSeen()
    ensures Heard(BEFORE, Waking("a", Longer, 6)) != Heard(BEFORE, Unswept(Waking("a", Longer, 6)))
  {
    hide Heard, Unswept;
    WithAndWithout(BEFORE, 6, Timed(6, Update("a", Longer)), Timed(6, Get("a")));
    assert "a" !in Swept(BEFORE, 6).sessions;
  }

  /** An identifier given out again inherits the old desk only if no sweep came
      first. */
  lemma ReuseIsSeen()
    ensures Heard(BEFORE, [SweepAt(6), RENEW, USE]) != Heard(BEFORE, Unswept([SweepAt(6), RENEW, USE]))
  {
    hide Heard, Unswept;
    WithAndWithout(BEFORE, 6, RENEW, USE);
    assert "a" !in Swept(BEFORE, 6).desks;
  }
}
