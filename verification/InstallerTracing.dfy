/** The steps of the conversation in every run, whatever is asked and when: what
    is on its way always leads the window to where the engine will be. */
module InstallerTracing {
  import opened Text
  import opened InstallerContract
  import opened InstallerEngine
  import opened InstallerClient
  import opened InstallerConversation

  // ── The steps of the future

  /** The steps still to be told, one after the other, end where the engine will
      be, at the disk in force, and never lead from a review to a review. */
  predicate Follows(shown: Option<StepState>, events: seq<Event>, g: EngineState)
    decreases |events|
  {
    if events == [] then InStep(shown, g)
    else if events[0].StepEvent? then
      && !(shown.Some? && shown.value.Review? && events[0].state.Review?)
      && Follows(Some(events[0].state), events[1..], g)
    else Follows(shown, events[1..], g)
  }

  /** The last step the window will have been told. */
  function LastStep(shown: Option<StepState>, events: seq<Event>): Option<StepState>
    decreases |events|
  {
    if events == [] then shown
    else LastStep(if events[0].StepEvent? then Some(events[0].state) else shown, events[1..])
  }

  /** A step other than the one shown. */
  predicate Changed(shown: Option<StepState>, e: Event) {
    e.StepEvent? && (shown.None? || shown.value.Step() != e.state.Step())
  }

  /** How many times the window will see the step change. */
  function Changes(shown: Option<StepState>, events: seq<Event>): nat
    decreases |events|
  {
    if events == [] then 0
    else
      (if Changed(shown, events[0]) then 1 else 0)
      + Changes(if events[0].StepEvent? then Some(events[0].state) else shown, events[1..])
  }

  lemma {:induction false} FollowsToTheLast(shown: Option<StepState>, events: seq<Event>, g: EngineState)
    requires Follows(shown, events, g)
    ensures InStep(LastStep(shown, events), g)
    ensures !HasStep(events) ==> LastStep(shown, events) == shown
    decreases |events|
  {
    if events != [] {
      StepsOfTail(events);
      FollowsToTheLast(if events[0].StepEvent? then Some(events[0].state) else shown, events[1..], g);
    }
  }

  /** From a review back to one, the step changes at least twice. */
  lemma {:induction false} AwayAndBack(shown: Option<StepState>, events: seq<Event>, g: EngineState)
    requires Follows(shown, events, g) && shown.Some? && g.at == REVIEW && HasStep(events)
    ensures Changes(shown, events) >= if shown.value.Review? then 2 else 1
    decreases |events|
  {
    StepsOfTail(events);
    var next := if events[0].StepEvent? then Some(events[0].state) else shown;
    if HasStep(events[1..]) {
      AwayAndBack(next, events[1..], g);
    } else {
      FollowsToTheLast(next, events[1..], g);
    }
  }

  lemma {:induction false} FollowsMore(shown: Option<StepState>, events: seq<Event>, g: EngineState, e: Event, g': EngineState)
    requires Follows(shown, events, g)
    requires if e.StepEvent? then !(g.at == REVIEW && e.state.Review?) && InStep(Some(e.state), g')
             else g'.at == g.at && g'.disk == g.disk
    ensures Follows(shown, events + [e], g')
    ensures Changes(shown, events + [e])
         == Changes(shown, events) + if e.StepEvent? && e.state.Step() != g.at then 1 else 0
    decreases |events|
  {
    var more := events + [e];
    if events == [] {
      assert more[0] == e && more[1..] == [];
    } else {
      assert more[0] == events[0] && more[1..] == events[1..] + [e];
      FollowsMore(if events[0].StepEvent? then Some(events[0].state) else shown, events[1..], g, e, g');
    }
  }

  lemma {:induction false} FollowsSame(shown: Option<StepState>, events: seq<Event>, g: EngineState, g': EngineState)
    requires Follows(shown, events, g) && g'.at == g.at && g'.disk == g.disk
    ensures Follows(shown, events, g')
    decreases |events|
  {
    if events != [] {
      FollowsSame(if events[0].StepEvent? then Some(events[0].state) else shown, events[1..], g, g');
    }
  }

  // ── What the window can count

  /** The actions that can take the engine to another step before a confirmation
      is accepted. */
  predicate Navigates(a: Action) {
    a.Begin? || a.Continue? || a.Back? || a.SelectDisk?
  }

  function CountOf(sent: seq<Action>): nat {
    if sent == [] then 0 else (if Navigates(sent[0]) then 1 else 0) + CountOf(sent[1..])
  }

  /** A count the window keeps by itself: one for the greeting of a new link and
      one for each navigation it sends, less each change of step it is told. */
  function Owed(m: Machine, moves: seq<Move>): int {
    if moves == [] then 0
    else
      var before, move := moves[..|moves| - 1], moves[|moves| - 1];
      var s := Run(m, before);
      if !Possible(s, move) then Owed(m, before)
      else match move
        case Connects => 1
        case Closes => 0
        case Gestures(g) => Owed(m, before) + if s.connected then CountOf(Do(s.window, g).1) else 0
        case WindowTakes =>
          Owed(m, before)
          - (if Changed(s.window.engine, s.events[0]) then 1 else 0)
          + CountOf(Take(s.window, s.events[0]).1)
        case EngineActs => Owed(m, before)
        case EngineTicks => Owed(m, before)
  }

  // ── In every run

  /** The steps follow, and none is on its way without a link. */
  predicate Traced(m: Machine, s: Conversation) {
    && (s.connected ==> Follows(s.window.engine, Future(m, s), Ahead(m, s)))
    && (!s.connected ==> s.actions == [] && s.events == [] && s.window.engine.None?)
    && (s.engine.stage.Some? ==> Writing(s.engine.at))
  }

  /** No more changes of step are on their way than the window is owed, until a
      confirmation has been accepted. */
  predicate Counted(m: Machine, s: Conversation, owed: int) {
    s.connected ==> Committed(Ahead(m, s).at) || Changes(s.window.engine, Future(m, s)) <= owed
  }

  /** What one action makes the engine say and where it leaves it. */
  ghost predicate Moves(m: Machine, g: EngineState, a: Action, r: Reaction) {
    && AnswersInKind(m, g, a, r)
    && (Committed(g.at) ==> Committed(r.0.at))
    && (r.1 != [] && r.1[0].StepEvent? && r.1[0].state.Step() != g.at ==> Navigates(a) || Committed(r.0.at))
  }

  lemma EngineMoves(m: Machine, g: EngineState, a: Action)
    ensures Moves(m, g, a, Act(m, g, a))
  {
    hide AcceptableNetwork, ValidHostname, Strip, FindDisk;
    EngineAnswersInKind(m, g, a);
  }

  lemma PostTraced(m: Machine, s: Conversation, a: Action, owed: int)
    requires s.connected && Traced(m, s) && Counted(m, s, owed)
    ensures Traced(m, Post(s, [a])) && Counted(m, Post(s, [a]), owed + if Navigates(a) then 1 else 0)
  {
    hide Act, Right, Follows, Changes;
    var g, future := Ahead(m, s), Future(m, s);
    var r := Act(m, g, a);
    DrainOneMore(m, s.engine, s.actions, a);
    EngineMoves(m, g, a);
    assert Future(m, Post(s, [a])) == future + r.1;
    if r.1 == [] {
      assert future + [] == future;
      FollowsSame(s.window.engine, future, g, r.0);
    } else {
      assert r.1 == [r.1[0]];
      FollowsMore(s.window.engine, future, g, r.1[0], r.0);
    }
  }

  /** The window as it stands sends nothing, or one action. */
  lemma SentTraced(m: Machine, s: Conversation, sent: seq<Action>, owed: int)
    requires s.connected && Traced(m, s) && Counted(m, s, owed) && |sent| <= 1
    ensures Traced(m, Post(s, sent)) && Counted(m, Post(s, sent), owed + CountOf(sent))
  {
    hide Traced, Counted;
    if sent == [] {
      assert s.actions + [] == s.actions;
    } else {
      assert sent == [sent[0]] && sent[1..] == [];
      PostTraced(m, s, sent[0], owed);
    }
  }

  lemma GestureTraced(m: Machine, s: Conversation, g: Gesture, owed: int)
    requires Traced(m, s) && Counted(m, s, owed)
    ensures var (w, sent) := Do(s.window, g);
            var s' := Post(s.(window := w), sent);
            Traced(m, s') && Counted(m, s', owed + if s.connected then CountOf(sent) else 0)
  {
    hide Act, Do, Follows, Changes, Drain;
    var (w, sent) := Do(s.window, g);
    GestureFacts(s.window, g);
    var s1 := s.(window := w);
    assert Ahead(m, s1) == Ahead(m, s) && Future(m, s1) == Future(m, s);
    if s.connected { SentTraced(m, s1, sent, owed); }
  }

  lemma TakingTraced(m: Machine, s: Conversation, owed: int)
    requires Traced(m, s) && Counted(m, s, owed) && s.events != []
    ensures var s' := Next(m, s, WindowTakes);
            Traced(m, s') && Counted(m, s', owed - (if Changed(s.window.engine, s.events[0]) then 1 else 0)
                                            + CountOf(Take(s.window, s.events[0]).1))
  {
    hide Act, Take, Drain;
    var (w, sent) := Take(s.window, s.events[0]);
    var s1 := s.(window := w, events := s.events[1..]);
    assert Future(m, s)[0] == s.events[0] && Future(m, s)[1..] == Future(m, s1);
    TakeShows(s.window, s.events[0]);
    assert Ahead(m, s1) == Ahead(m, s);
    var fewer := owed - if Changed(s.window.engine, s.events[0]) then 1 else 0;
    assert Traced(m, s1) && Counted(m, s1, fewer);
    SentTraced(m, s1, sent, fewer);
  }

  lemma TakeShows(w: ClientState, e: Event)
    ensures Take(w, e).0.engine == (if e.StepEvent? then Some(e.state) else w.engine)
    ensures |Take(w, e).1| <= 1
  {
    hide StillListed;
  }

  lemma ActingTraced(m: Machine, s: Conversation, owed: int)
    requires Traced(m, s) && Counted(m, s, owed) && s.connected && s.actions != []
    ensures Traced(m, Next(m, s, EngineActs)) && Counted(m, Next(m, s, EngineActs), owed)
  {
    hide Follows, Changes;
    var s' := Next(m, s, EngineActs);
    assert Ahead(m, s') == Ahead(m, s) && Future(m, s') == Future(m, s) by { hide Act; }
    assert s'.engine.stage.Some? ==> Writing(s'.engine.at) by {
      hide AcceptableNetwork, ValidHostname, Strip, FindDisk;
    }
  }

  lemma TickingTraced(m: Machine, s: Conversation, owed: int)
    requires Traced(m, s) && Counted(m, s, owed) && s.connected
    ensures Traced(m, Next(m, s, EngineTicks)) && Counted(m, Next(m, s, EngineTicks), owed)
  {
    hide Follows, Changes;
    var (g, said) := Tick(m, s.engine);
    var s' := Next(m, s, EngineTicks);
    if said == [] {
      assert Future(m, s') == Future(m, s);
    } else {
      var shown := s.window.engine;
      DrainedDeaf(m, s.engine, s.actions);
      DrainedDeaf(m, g, s.actions);
      assert Future(m, s) == s.events && Future(m, s') == s.events + said;
      var told := s.events + [said[0]];
      FollowsMore(shown, s.events, s.engine, said[0], s.engine);
      FollowsMore(shown, told, s.engine, said[1], s.engine);
      if |said| == 3 {
        FollowsMore(shown, told + [said[1]], s.engine, said[2], g);
        assert s.events + said == told + [said[1]] + [said[2]];
      } else {
        FollowsSame(shown, told + [said[1]], s.engine, g);
        assert s.events + said == told + [said[1]];
      }
    }
  }

  lemma LinkTraced(m: Machine, s: Conversation, move: Move)
    requires Traced(m, s) && (move.Connects? || move.Closes?) && Possible(s, move)
    ensures Traced(m, Next(m, s, move)) && Counted(m, Next(m, s, move), if move.Connects? then 1 else 0)
  {
    hide Act, Strip;
    var s' := Next(m, s, move);
    if move.Connects? {
      var opening := if m.scenario == ReportOnly then Media else Welcome;
      assert Future(m, s') == [Hello, StepEvent(opening)];
      assert Future(m, s')[1..] == [StepEvent(opening)] && [StepEvent(opening)][1..] == [];
      assert Follows(Some(opening), [], Ahead(m, s')) && Changes(Some(opening), []) == 0;
      assert Follows(None, [StepEvent(opening)], Ahead(m, s')) && Changes(None, [StepEvent(opening)]) == 1;
    }
  }

  /** In every run, whatever is asked and when: the steps on their way lead to
      where the engine will be, and no more changes of step are on their way than
      the window is owed, until a confirmation has been accepted. */
  lemma {:induction false} EveryRunIsTraced(m: Machine, moves: seq<Move>)
    ensures Traced(m, Run(m, moves)) && Counted(m, Run(m, moves), Owed(m, moves))
  {
    hide Traced, Counted, Act, Tick, Do, Take;
    if moves == [] {
      OpeningIsTraced(m);
    } else {
      var before, move := moves[..|moves| - 1], moves[|moves| - 1];
      var s, owed := Run(m, before), Owed(m, before);
      EveryRunIsTraced(m, before);
      if Possible(s, move) {
        match move
        case Gestures(g) => GestureTraced(m, s, g, owed);
        case WindowTakes => TakingTraced(m, s, owed);
        case EngineActs => ActingTraced(m, s, owed);
        case EngineTicks => TickingTraced(m, s, owed);
        case Connects => LinkTraced(m, s, move);
        case Closes => LinkTraced(m, s, move);
      }
    }
  }

  lemma OpeningIsTraced(m: Machine)
    ensures Traced(m, Opening(m)) && Counted(m, Opening(m), 0)
  {
  }

  // ── When the window may ask

  /** A window at the review that is owed at most one change of step is not
      overtaken: its own count is enough to know. */
  lemma OwedOneIsInTime(m: Machine, moves: seq<Move>)
    requires Run(m, moves).window.At(REVIEW) && Owed(m, moves) <= 1
    ensures !Overtaken(m, Run(m, moves))
  {
    hide Act, Strip, Drain, Run, Owed, Follows, Changes;
    EveryRunIsTraced(m, moves);
    var s := Run(m, moves);
    if Overtaken(m, s) {
      AwayAndBack(s.window.engine, Future(m, s), Ahead(m, s));
    }
  }

  /** The person asks and confirms only while the window is owed at most one. */
  predicate Patient(m: Machine, moves: seq<Move>) {
    forall i :: 0 <= i < |moves| ==> AsksInTime(m, moves, i)
  }

  predicate AsksInTime(m: Machine, moves: seq<Move>, i: nat)
    requires i < |moves|
  {
    moves[i].Gestures? && (moves[i].gesture.Submit? || moves[i].gesture.Type?) ==> Owed(m, moves[..i]) <= 1
  }

  /** So a window that keeps the count and waits keeps every run aligned. */
  lemma PatienceIsDiscipline(m: Machine, moves: seq<Move>)
    requires Patient(m, moves)
    ensures Disciplined(m, moves) && Aligned(m, Run(m, moves))
  {
    hide Aligned, Overtaken, Run, Owed;
    forall i | 0 <= i < |moves| ensures Timely(m, Run(m, moves[..i]), moves[i]) {
      assert AsksInTime(m, moves, i);
      if Owed(m, moves[..i]) <= 1 && Run(m, moves[..i]).window.At(REVIEW) { OwedOneIsInTime(m, moves[..i]); }
    }
    DisciplinedRunIsAligned(m, moves);
  }
}
