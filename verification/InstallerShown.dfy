/** What the window shows of an installation, and of the disks: in every run, over
    any delays of the link. */
module InstallerShown {
  import opened Text
  import opened InstallerContract
  import opened InstallerEngine
  import opened InstallerClient
  import opened InstallerConversation
  import opened InstallerOutcome
  import opened InstallerSteps

  // ── The stages

  /** The stages of an installation and how each one ends. */
  function Outcomes(m: Machine): seq<(string, bool)> {
    if m.scenario == FailingWrite then [("media_check", true), ("install", false)]
    else [("media_check", true), ("install", true), ("verify", true), ("first_boot", true)]
  }

  /** How many stages have ended. */
  function Done(m: Machine, g: EngineState): nat {
    match g.at
    case INSTALLING => if g.stage.Some? then g.stage.value else 0
    case INSTALLED => |Outcomes(m)|
    case FAILED => |Outcomes(m)|
    case _ => 0
  }

  predicate Over(at: Step) { at == INSTALLED || at == FAILED }

  /** The stages on the screen are those of the step on the screen. */
  predicate Fits(m: Machine, shown: Option<StepState>, stages: seq<(string, bool)>) {
    shown.Some? ==>
      var at := shown.value.Step();
      && MayBe(m, at)
      && |stages| <= |Outcomes(m)| && stages == Outcomes(m)[..|stages|]
      && (!Writing(at) ==> stages == [])
      && (Over(at) ==> stages == Outcomes(m))
  }

  function StagesAfter(shown: Option<StepState>, stages: seq<(string, bool)>, e: Event): seq<(string, bool)> {
    match e
    case StepEvent(state) =>
      if state.Welcome? && (shown.None? || shown.value.Step() != WELCOME) then [] else stages
    case StageDone(name, ok) => stages + [(name, ok)]
    case _ => stages
  }

  function StepAfter(shown: Option<StepState>, e: Event): Option<StepState> {
    if e.StepEvent? then Some(e.state) else shown
  }

  /** Everything still to be told fits, one thing after the other, and ends where
      the engine will be; nothing follows the end of an installation. */
  predicate Unfolds(m: Machine, shown: Option<StepState>, stages: seq<(string, bool)>, events: seq<Event>, g: EngineState)
    decreases |events|
  {
    && Fits(m, shown, stages)
    && if events == [] then shown.Some? && shown.value.Step() == g.at && |stages| == Done(m, g)
       else
         && (shown.Some? && Over(shown.value.Step()) ==> !events[0].StepEvent?)
         && Unfolds(m, StepAfter(shown, events[0]), StagesAfter(shown, stages, events[0]), events[1..], g)
  }

  /** One more thing said by an engine that goes from `g` to `g'`. */
  predicate Follows(m: Machine, g: EngineState, e: Event, g': EngineState) {
    match e
    case StepEvent(state) =>
      && !state.Welcome? && state.Step() == g'.at && Done(m, g') == Done(m, g) && !Over(g.at)
      && (!Writing(g'.at) ==> Done(m, g) == 0)
      && (Over(g'.at) ==> Done(m, g) == |Outcomes(m)|)
      && MayBe(m, g'.at)
    case StageDone(name, ok) =>
      && g.at == g'.at == INSTALLING && Done(m, g') == Done(m, g) + 1
      && Done(m, g) < |Outcomes(m)| && Outcomes(m)[Done(m, g)] == (name, ok)
    case _ => g'.at == g.at && Done(m, g') == Done(m, g)
  }

  lemma {:induction false} UnfoldsMore(m: Machine, shown: Option<StepState>, stages: seq<(string, bool)>,
                                       events: seq<Event>, g: EngineState, e: Event, g': EngineState)
    requires Unfolds(m, shown, stages, events, g) && Follows(m, g, e, g')
    ensures Unfolds(m, shown, stages, events + [e], g')
    decreases |events|
  {
    hide Outcomes, Done;
    var more := events + [e];
    if events == [] {
      assert more[0] == e && more[1..] == [];
      UnfoldsLast(m, shown, stages, g, e, g');
    } else {
      hide Follows, Fits;
      assert more[0] == events[0] && more[1..] == events[1..] + [e];
      UnfoldsMore(m, StepAfter(shown, events[0]), StagesAfter(shown, stages, events[0]), events[1..], g, e, g');
    }
  }

  lemma UnfoldsLast(m: Machine, shown: Option<StepState>, stages: seq<(string, bool)>, g: EngineState, e: Event, g': EngineState)
    requires Unfolds(m, shown, stages, [], g) && Follows(m, g, e, g')
    ensures Unfolds(m, StepAfter(shown, e), StagesAfter(shown, stages, e), [], g')
    ensures shown.Some? && Over(shown.value.Step()) ==> !e.StepEvent?
  {
    hide Outcomes, Done;
    var d := |stages|;
    if e.StageDone? {
      assert Outcomes(m)[..d + 1] == Outcomes(m)[..d] + [Outcomes(m)[d]];
    } else if d == |Outcomes(m)| {
      assert Outcomes(m)[..d] == Outcomes(m);
    }
  }

  lemma {:induction false} UnfoldsSame(m: Machine, shown: Option<StepState>, stages: seq<(string, bool)>,
                                       events: seq<Event>, g: EngineState, g': EngineState)
    requires Unfolds(m, shown, stages, events, g) && g'.at == g.at && Done(m, g') == Done(m, g)
    ensures Unfolds(m, shown, stages, events, g')
    decreases |events|
  {
    hide Fits, Done, Outcomes;
    if events != [] {
      UnfoldsSame(m, StepAfter(shown, events[0]), StagesAfter(shown, stages, events[0]), events[1..], g, g');
    }
  }

  // ── In every run

  ghost predicate Unfolding(m: Machine, s: Conversation) {
    && InPlan(m, s.engine) && MayBe(m, s.engine.at)
    && (s.connected ==> Unfolds(m, s.window.engine, s.window.stages, Future(m, s), Ahead(m, s)))
    && (!s.connected ==> s.actions == [] && s.events == [] && s.window.engine.None?)
    && (m.scenario == ReportOnly ==> s.window.stages == [])
  }

  lemma {:induction false} DrainInPlan(m: Machine, g: EngineState, actions: seq<Action>)
    requires InPlan(m, g) && MayBe(m, g.at)
    ensures InPlan(m, Drain(m, g, actions).0) && MayBe(m, Drain(m, g, actions).0.at)
    decreases |actions|
  {
    hide Act, InPlan, MayBe;
    if actions != [] {
      ActInPlan(m, g, actions[0]);
      ReactionStaysWhereItMayBe(m, g, Received(actions[0]));
      DrainInPlan(m, Act(m, g, actions[0]).0, actions[1..]);
    }
  }

  lemma ActFollows(m: Machine, g: EngineState, a: Action)
    requires InPlan(m, g) && MayBe(m, Act(m, g, a).0.at)
    ensures var (g', said) := Act(m, g, a);
            |said| <= 1 && if said == [] then g'.at == g.at && Done(m, g') == Done(m, g) else Follows(m, g, said[0], g')
  {
    hide AcceptableNetwork, ValidHostname, Strip, FindDisk, Outcomes, MayBe;
  }

  lemma PostUnfolds(m: Machine, s: Conversation, a: Action)
    requires s.connected && Unfolding(m, s)
    ensures Unfolding(m, Post(s, [a]))
  {
    hide Act, Unfolds, Follows, InPlan, MayBe, Done;
    var g, future := Ahead(m, s), Future(m, s);
    var r := Act(m, g, a);
    DrainInPlan(m, s.engine, s.actions);
    ReactionStaysWhereItMayBe(m, g, Received(a));
    DrainOneMore(m, s.engine, s.actions, a);
    ActFollows(m, g, a);
    assert Future(m, Post(s, [a])) == future + r.1;
    if r.1 == [] {
      assert future + [] == future;
      UnfoldsSame(m, s.window.engine, s.window.stages, future, g, r.0);
    } else {
      assert r.1 == [r.1[0]];
      UnfoldsMore(m, s.window.engine, s.window.stages, future, g, r.1[0], r.0);
    }
  }

  lemma SentUnfolds(m: Machine, s: Conversation, sent: seq<Action>)
    requires Unfolding(m, s) && |sent| <= 1
    ensures Unfolding(m, Post(s, sent))
  {
    hide Unfolding;
    if s.connected {
      if sent == [] {
        assert s.actions + [] == s.actions;
      } else {
        assert sent == [sent[0]];
        PostUnfolds(m, s, sent[0]);
      }
    }
  }

  lemma GestureKeepsStages(w: ClientState, g: Gesture)
    ensures var (w', sent) := Do(w, g); w'.engine == w.engine && w'.stages == w.stages && |sent| <= 1
  {
  }

  lemma GestureUnfolds(m: Machine, s: Conversation, g: Gesture)
    requires Unfolding(m, s)
    ensures var (w, sent) := Do(s.window, g); Unfolding(m, Post(s.(window := w), sent))
  {
    hide Do, Unfolds, InPlan, MayBe, Drain;
    var (w, sent) := Do(s.window, g);
    GestureKeepsStages(s.window, g);
    var s1 := s.(window := w);
    assert Ahead(m, s1) == Ahead(m, s) && Future(m, s1) == Future(m, s);
    SentUnfolds(m, s1, sent);
  }

  lemma TakeKeepsStages(w: ClientState, e: Event)
    ensures var (w', sent) := Take(w, e);
      && w'.engine == StepAfter(w.engine, e) && w'.stages == StagesAfter(w.engine, w.stages, e) && |sent| <= 1
  {
    hide StillListed;
  }

  lemma TakingUnfolds(m: Machine, s: Conversation)
    requires Unfolding(m, s) && s.events != []
    ensures Unfolding(m, Next(m, s, WindowTakes))
  {
    hide Take, Fits, InPlan, MayBe, Drain;
    var (w, sent) := Take(s.window, s.events[0]);
    TakeKeepsStages(s.window, s.events[0]);
    var s1 := s.(window := w, events := s.events[1..]);
    assert Ahead(m, s1) == Ahead(m, s);
    if s.connected {
      var future := Future(m, s);
      assert future[0] == s.events[0] && future[1..] == Future(m, s1);
      if m.scenario == ReportOnly { ReportHasNoStages(m, s, s.events[0]); }
      SentUnfolds(m, s1, sent);
    }
  }

  /** A session that only reports is told of no stage. */
  lemma ReportHasNoStages(m: Machine, s: Conversation, e: Event)
    requires Unfolding(m, s) && s.connected && m.scenario == ReportOnly
    requires s.events != [] && e == s.events[0]
    ensures StagesAfter(s.window.engine, s.window.stages, e) == []
  {
    hide InPlan, Drain, Fits;
    StagesOnlyGrow(m, StepAfter(s.window.engine, e), StagesAfter(s.window.engine, s.window.stages, e), Future(m, s)[1..], Ahead(m, s));
  }

  /** So none was told before, since it never starts anew. */
  lemma {:induction false} StagesOnlyGrow(m: Machine, shown: Option<StepState>, stages: seq<(string, bool)>,
                                          events: seq<Event>, g: EngineState)
    requires Unfolds(m, shown, stages, events, g) && m.scenario == ReportOnly
    ensures stages == []
    decreases |events|
  {
    hide Outcomes;
    if events != [] {
      StagesOnlyGrow(m, StepAfter(shown, events[0]), StagesAfter(shown, stages, events[0]), events[1..], g);
    }
  }

  lemma ActingUnfolds(m: Machine, s: Conversation)
    requires Unfolding(m, s) && s.connected && s.actions != []
    ensures Unfolding(m, Next(m, s, EngineActs))
  {
    hide Unfolds, InPlan, MayBe, Act;
    var s' := Next(m, s, EngineActs);
    ActInPlan(m, s.engine, s.actions[0]);
    ReactionStaysWhereItMayBe(m, s.engine, Received(s.actions[0]));
    assert Ahead(m, s') == Ahead(m, s) && Future(m, s') == Future(m, s);
  }

  /** Between the end of a stage and what comes of it. */
  function StageEnded(g: EngineState): EngineState {
    if g.stage.Some? then g.(stage := Some(g.stage.value + 1)) else g
  }

  lemma TickFollows(m: Machine, g: EngineState)
    requires InPlan(m, g) && g.at == INSTALLING && MayBe(m, Tick(m, g).0.at)
    ensures var (g', said) := Tick(m, g); var ended := StageEnded(g);
      && 2 <= |said| <= 3
      && Follows(m, g, said[0], g) && Follows(m, g, said[1], ended)
      && (if |said| == 3 then Follows(m, ended, said[2], g') else g' == ended)
  {
  }

  lemma TickingUnfolds(m: Machine, s: Conversation)
    requires Unfolding(m, s) && s.connected
    ensures Unfolding(m, Next(m, s, EngineTicks))
  {
    hide Unfolds, InPlan, MayBe, Tick, Follows, StageEnded, Done;
    var (g, said) := Tick(m, s.engine);
    var s' := Next(m, s, EngineTicks);
    TickInPlan(m, s.engine);
    ReactionStaysWhereItMayBe(m, s.engine, TimerFired);
    if s.engine.at != INSTALLING {
      assert s.events + [] == s.events;
    } else {
      var (shown, stages) := (s.window.engine, s.window.stages);
      DrainedDeaf(m, s.engine, s.actions);
      DrainedDeaf(m, g, s.actions);
      assert Future(m, s) == s.events && Future(m, s') == s.events + said;
      TickFollows(m, s.engine);
      var ended := StageEnded(s.engine);
      var told := s.events + [said[0]] + [said[1]];
      UnfoldsMore(m, shown, stages, s.events, s.engine, said[0], s.engine);
      UnfoldsMore(m, shown, stages, s.events + [said[0]], s.engine, said[1], ended);
      if |said| == 3 {
        UnfoldsMore(m, shown, stages, told, ended, said[2], g);
        assert s.events + said == told + [said[2]];
      } else {
        assert s.events + said == told;
      }
    }
  }

  lemma LinkUnfolds(m: Machine, s: Conversation, move: Move)
    requires Unfolding(m, s) && (move.Connects? || move.Closes?) && Possible(s, move)
    ensures Unfolding(m, Next(m, s, move))
  {
    hide Act, Outcomes;
    var s' := Next(m, s, move);
    BootInPlan(m);
    BootMayBe(m);
    if move.Connects? {
      var opening := if m.scenario == ReportOnly then Media else Welcome;
      var events := [Hello, StepEvent(opening)];
      assert Future(m, s') == events;
      assert events[1..] == [StepEvent(opening)] && events[1..][1..] == [];
      assert Unfolds(m, Some(opening), [], [], Ahead(m, s'));
      assert Unfolds(m, None, s.window.stages, events[1..], Ahead(m, s'));
    }
  }

  lemma {:induction false} EveryRunUnfolds(m: Machine, moves: seq<Move>)
    ensures Unfolding(m, Run(m, moves))
  {
    hide Unfolding, Act, Tick, Do, Take;
    if moves == [] {
      OpeningUnfolds(m);
    } else {
      var before, move := moves[..|moves| - 1], moves[|moves| - 1];
      var s := Run(m, before);
      EveryRunUnfolds(m, before);
      if Possible(s, move) {
        match move
        case Gestures(g) => GestureUnfolds(m, s, g);
        case WindowTakes => TakingUnfolds(m, s);
        case EngineActs => ActingUnfolds(m, s);
        case EngineTicks => TickingUnfolds(m, s);
        case Connects => LinkUnfolds(m, s, move);
        case Closes => LinkUnfolds(m, s, move);
      }
    }
  }

  lemma OpeningUnfolds(m: Machine)
    ensures Unfolding(m, Opening(m))
  {
  }

  lemma {:induction false} OverIsTheEnd(m: Machine, shown: Option<StepState>, stages: seq<(string, bool)>,
                                        events: seq<Event>, g: EngineState)
    requires Unfolds(m, shown, stages, events, g) && shown.Some? && Over(shown.value.Step())
    ensures g.at == shown.value.Step()
    decreases |events|
  {
    hide Fits, Outcomes, Done;
    if events != [] {
      OverIsTheEnd(m, StepAfter(shown, events[0]), StagesAfter(shown, stages, events[0]), events[1..], g);
    }
  }

  lemma {:induction false} OnlyTimeEnds(m: Machine, g: EngineState, actions: seq<Action>)
    requires InPlan(m, g) && Over(Drain(m, g, actions).0.at)
    ensures Drain(m, g, actions).0 == g
    decreases |actions|
  {
    hide Act, Told;
    if actions != [] {
      ActInPlan(m, g, actions[0]);
      OnlyTimeEnds(m, Act(m, g, actions[0]).0, actions[1..]);
      ActIsTold(m, g, actions[0]);
    }
  }

  /** In every run, over any delays: when the window says that the system is
      installed, the engine has written the disk in force and all four stages on
      the screen went well; when it says that it failed, the write failed, after a
      media check that went well. While it installs, what it shows is how far the
      plan has gone. */
  lemma WindowShowsWhatHappened(m: Machine, moves: seq<Move>)
    ensures var s := Run(m, moves); var w := s.window;
      && (w.At(INSTALLED) ==>
            && w.stages == [("media_check", true), ("install", true), ("verify", true), ("first_boot", true)]
            && s.engine.at == INSTALLED && s.engine.disk.Some? && s.engine.wrote == Some(s.engine.disk.value.byPath))
      && (w.At(FAILED) ==>
            && w.stages == [("media_check", true), ("install", false)]
            && s.engine.at == FAILED && s.engine.wrote == None && m.scenario == FailingWrite)
      && (w.At(INSTALLING) ==> |w.stages| <= |Outcomes(m)| && w.stages == Outcomes(m)[..|w.stages|])
      && (w.engine.Some? && !Writing(w.engine.value.Step()) ==> w.stages == [])
  {
    hide Drain, Run;
    EveryRunUnfolds(m, moves);
    var s := Run(m, moves);
    if s.window.At(INSTALLED) || s.window.At(FAILED) {
      OverIsTheEnd(m, s.window.engine, s.window.stages, Future(m, s), Ahead(m, s));
      OnlyTimeEnds(m, s.engine, s.actions);
    }
  }

  // ── The last lines

  /** The window after some lines of detail. */
  function Lines(c: ClientState, lines: seq<string>): ClientState
    decreases |lines|
  {
    if lines == [] then c else Take(Lines(c, lines[..|lines| - 1]), Detail(lines[|lines| - 1])).0
  }

  /** The last four hundred lines are kept, in order, whatever came before. */
  lemma {:induction false} LastLinesAreKept(c: ClientState, lines: seq<string>)
    requires |c.details| <= 400
    ensures var all := c.details + lines;
            Lines(c, lines) == c.(details := if |all| <= 400 then all else all[|all| - 400..])
    decreases |lines|
  {
    if lines == [] {
      assert c.details + [] == c.details;
    } else {
      var n := |lines| - 1;
      LastLinesAreKept(c, lines[..n]);
      assert c.details + lines == c.details + lines[..n] + [lines[n]];
    }
  }

  // ── The disk marked

  /** A disk that may be erased is on the list under the path marked. */
  predicate MarkedIsListed(w: ClientState) {
    w.At(STORAGE) && w.chosen.Some? ==>
      exists i :: 0 <= i < |w.engine.value.disks| && w.engine.value.disks[i].byPath == w.chosen.value
                  && !w.engine.value.disks[i].protection.Protected?
  }

  lemma GestureKeepsMarked(w: ClientState, g: Gesture)
    requires MarkedIsListed(w) && Enabled(w, g)
    ensures MarkedIsListed(Do(w, g).0)
    ensures Do(w, g).1 != [] && Do(w, g).1[0].SelectDisk? ==> Do(w, g).1 == [SelectDisk(w.chosen.value)] && w.At(STORAGE)
  {
    if g.ChooseClick? {
      var d :| d in w.engine.value.disks && d.byPath == g.path && Selectable(d);
      var i :| 0 <= i < |w.engine.value.disks| && w.engine.value.disks[i] == d;
    }
  }

  lemma TakeKeepsMarked(w: ClientState, e: Event)
    requires MarkedIsListed(w)
    ensures MarkedIsListed(Take(w, e).0)
  {
    hide Shows;
    if e.StepEvent? {
      ShowsMarked(w, e.state);
      if e.state.Storage? && Take(w, e).0.chosen.Some? { ListedSomewhere(Shows(w, e.state), e.state.disks); }
    }
  }

  lemma ShowsMarked(w: ClientState, state: StepState)
    ensures var shown := Shows(w, state);
            shown.engine == Some(state) && (state.Storage? && shown.chosen.Some? ==> StillListed(shown, state.disks))
  {
  }

  lemma ListedSomewhere(w: ClientState, disks: seq<Disk>)
    requires StillListed(w, disks)
    ensures w.chosen.Some?
    ensures exists i :: 0 <= i < |disks| && disks[i].byPath == w.chosen.value && !disks[i].protection.Protected?
  {
    var d :| d in disks && w.chosen == Some(d.byPath) && Selectable(d);
    var i :| 0 <= i < |disks| && disks[i] == d;
  }

  /** In every run the disk marked on the list is one the list shows as one that may
      be erased, and only such a one is sent to be selected. */
  lemma {:induction false} MarkedIsAlwaysListed(m: Machine, moves: seq<Move>, g: Gesture)
    ensures var w := Run(m, moves).window;
      && MarkedIsListed(w)
      && (Enabled(w, g) && Do(w, g).1 != [] && Do(w, g).1[0].SelectDisk? ==>
            w.At(STORAGE) && w.chosen.Some? && Do(w, g).1 == [SelectDisk(w.chosen.value)])
  {
    hide Act, Tick, Do, Take, Enabled, MarkedIsListed;
    if moves == [] {
      NothingMarked();
    } else {
      var before, move := moves[..|moves| - 1], moves[|moves| - 1];
      var s := Run(m, before);
      MarkedIsAlwaysListed(m, before, g);
      if Possible(s, move) {
        match move
        case Gestures(h) => GestureKeepsMarked(s.window, h);
        case WindowTakes => TakeKeepsMarked(s.window, s.events[0]);
        case Closes => NothingShown(s.window);
        case _ =>
      }
    }
    var w := Run(m, moves).window;
    if Enabled(w, g) { GestureKeepsMarked(w, g); SelectionNeedsAMark(w, g); }
  }

  lemma SelectionNeedsAMark(w: ClientState, g: Gesture)
    ensures Do(w, g).1 != [] && Do(w, g).1[0].SelectDisk? ==> w.chosen.Some?
  {
  }

  lemma NothingMarked()
    ensures MarkedIsListed(FRESH)
  {
  }

  lemma NothingShown(w: ClientState)
    ensures MarkedIsListed(Disconnected(w))
  {
  }
}
