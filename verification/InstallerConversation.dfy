/** The window and the engine over a link that delivers in order but not at
    once: everything may be in flight, in both directions, at any moment. */
module InstallerConversation {
  import opened Text
  import opened InstallerContract
  import opened InstallerEngine
  import opened InstallerClient

  datatype Conversation = Conversation(
    window: ClientState,
    actions: seq<Action>,
    engine: EngineState,
    events: seq<Event>,
    connected: bool)

  datatype Move =
    | Gestures(gesture: Gesture)
    | WindowTakes
    | EngineActs
    | EngineTicks
    | Connects
    | Closes

  function Opening(m: Machine): Conversation {
    Conversation(FRESH, [], Boot(m).0, [], false)
  }

  /** What is sent while there is no link is lost. */
  function Post(s: Conversation, sent: seq<Action>): Conversation {
    if s.connected then s.(actions := s.actions + sent) else s
  }

  predicate Possible(s: Conversation, move: Move) {
    match move
    case Gestures(g) => Enabled(s.window, g)
    case WindowTakes => s.events != []
    case EngineActs => s.connected && s.actions != []
    case EngineTicks => s.connected
    case Connects => !s.connected
    case Closes => s.connected && s.events == []
  }

  /** One move; a move that is not possible changes nothing. */
  function Next(m: Machine, s: Conversation, move: Move): Conversation {
    if !Possible(s, move) then s else
    match move
    case Gestures(g) =>
      var (w, sent) := Do(s.window, g);
      Post(s.(window := w), sent)
    case WindowTakes =>
      var (w, sent) := Take(s.window, s.events[0]);
      Post(s.(window := w, events := s.events[1..]), sent)
    case EngineActs =>
      var (g, said) := Act(m, s.engine, s.actions[0]);
      s.(engine := g, actions := s.actions[1..], events := s.events + said)
    case EngineTicks =>
      var (g, said) := Tick(m, s.engine);
      s.(engine := g, events := s.events + said)
    case Connects =>
      s.(connected := true, engine := Boot(m).0, events := Boot(m).1)
    case Closes =>
      s.(connected := false, window := Disconnected(s.window), actions := [], engine := Boot(m).0)
  }

  function Run(m: Machine, moves: seq<Move>): Conversation {
    if moves == [] then Opening(m)
    else Next(m, Run(m, moves[..|moves| - 1]), moves[|moves| - 1])
  }

  // ── The drained view: where the engine will be, and all the window will hear

  function Drain(m: Machine, g: EngineState, actions: seq<Action>): Reaction
    decreases |actions|
  {
    if actions == [] then (g, [])
    else
      var (g1, said) := Act(m, g, actions[0]);
      var (g2, rest) := Drain(m, g1, actions[1..]);
      (g2, said + rest)
  }

  function Ahead(m: Machine, s: Conversation): EngineState {
    Drain(m, s.engine, s.actions).0
  }

  function Future(m: Machine, s: Conversation): seq<Event> {
    s.events + Drain(m, s.engine, s.actions).1
  }

  lemma {:induction false} DrainOneMore(m: Machine, g: EngineState, actions: seq<Action>, a: Action)
    ensures var (g1, said1) := Drain(m, g, actions);
            var (g2, said2) := Act(m, g1, a);
            Drain(m, g, actions + [a]) == (g2, said1 + said2)
    decreases |actions|
  {
    hide Act;
    var more := actions + [a];
    if actions == [] {
      assert more[0] == a && more[1..] == [];
      assert Drain(m, g, more) == (Act(m, g, a).0, Act(m, g, a).1 + []);
      assert Act(m, g, a).1 + [] == Act(m, g, a).1 == [] + Act(m, g, a).1;
    } else {
      var (g1, said) := Act(m, g, actions[0]);
      DrainOneMore(m, g1, actions[1..], a);
      assert more[0] == actions[0] && more[1..] == actions[1..] + [a];
      var (g2, rest) := Drain(m, g1, actions[1..]);
      assert said + (rest + Act(m, g2, a).1) == said + rest + Act(m, g2, a).1;
    }
  }

  /** While it installs and afterwards the engine ignores every action. */
  lemma {:induction false} DrainedDeaf(m: Machine, g: EngineState, actions: seq<Action>)
    requires Writing(g.at)
    ensures Drain(m, g, actions) == (g, [])
    decreases |actions|
  {
    if actions != [] {
      var silence: seq<Event> := [];
      assert Act(m, g, actions[0]) == (g, silence);
      DrainedDeaf(m, g, actions[1..]);
      assert Drain(m, g, actions) == (g, silence + silence);
      assert silence + silence == silence;
    }
  }

  // ── Replaying the future through the window

  predicate HasStep(events: seq<Event>) {
    exists i :: 0 <= i < |events| && events[i].StepEvent?
  }

  /** The replay ends in step with the engine: same step, and at REVIEW the disk
      on the screen is the disk in force. */
  predicate InStep(shown: Option<StepState>, g: EngineState) {
    && shown.Some? && shown.value.Step() == g.at
    && (shown.value.Review? ==> g.disk == Some(shown.value.disk))
  }

  function Kept(shown: Option<StepState>, checks: seq<string>, state: StepState): seq<string> {
    if shown.Some? && shown.value.Step() == state.Step() then checks else []
  }

  /** Everything still to be heard fits the questions still unanswered: every
      answer finds its own question at the head of the list and is the engine's
      answer to it for the disk on the screen, and none is left at the end. */
  predicate Plays(m: Machine, shown: Option<StepState>, checks: seq<string>, events: seq<Event>, g: EngineState)
    decreases |events|
  {
    if events == [] then InStep(shown, g) && checks == []
    else
      match events[0]
      case StepEvent(state) =>
        && !(shown.Some? && shown.value.Review? && state.Review?)
        && Plays(m, Some(state), Kept(shown, checks, state), events[1..], g)
      case ConfirmationChecked(valid) =>
        && checks != [] && shown.Some? && shown.value.Review?
        && valid == m.Accepts(shown.value.disk, checks[0])
        && Plays(m, shown, checks[1..], events[1..], g)
      case _ => Plays(m, shown, checks, events[1..], g)
  }

  /** The answer on the screen is the engine's, for the disk on the screen. */
  predicate AnswerIsTrue(m: Machine, w: ClientState) {
    w.engine.Some? && w.engine.value.Review? && w.checked.Some? ==>
      w.checked.value.valid == m.Accepts(w.engine.value.disk, w.checked.value.typed)
  }

  predicate Aligned(m: Machine, s: Conversation) {
    && (s.connected ==> Plays(m, s.window.engine, s.window.checks, Future(m, s), Ahead(m, s)))
    && (!s.connected ==> s.actions == [] && s.events == [] && s.window.engine.None?)
    && (s.engine.stage.Some? ==> Writing(s.engine.at))
    && AnswerIsTrue(m, s.window) && !s.window.refusedConfirm
  }

  /** The engine will be at REVIEW when what was sent reaches it, but the window
      has a step still to be told: it is not that REVIEW which is on the screen. */
  predicate Overtaken(m: Machine, s: Conversation) {
    Ahead(m, s).at == REVIEW && HasStep(Future(m, s))
  }

  /** A question or a confirmation leaves the window only when not overtaken. */
  predicate Timely(m: Machine, s: Conversation, move: Move) {
    move.Gestures? && Possible(s, move)
    && (move.gesture.Submit? || (move.gesture.Type? && move.gesture.text != ""))
    ==> !Overtaken(m, s)
  }

  predicate Disciplined(m: Machine, moves: seq<Move>) {
    forall i :: 0 <= i < |moves| ==> Timely(m, Run(m, moves[..i]), moves[i])
  }

  // ── Appending to the future

  lemma {:induction false} PlaysQuietly(m: Machine, shown: Option<StepState>, checks: seq<string>,
                                        events: seq<Event>, e: Event, g: EngineState)
    requires Plays(m, shown, checks, events, g)
    requires !e.StepEvent? && !e.ConfirmationChecked?
    ensures Plays(m, shown, checks, events + [e], g)
    decreases |events|
  {
    if events != [] {
      assert (events + [e])[1..] == events[1..] + [e];
      match events[0]
      case StepEvent(state) => PlaysQuietly(m, Some(state), Kept(shown, checks, state), events[1..], e, g);
      case ConfirmationChecked(_) => PlaysQuietly(m, shown, checks[1..], events[1..], e, g);
      case _ => PlaysQuietly(m, shown, checks, events[1..], e, g);
    } else {
      assert ([e])[1..] == [];
    }
  }

  /** The engine's reaction moved to a new step. */
  lemma {:induction false} PlaysOn(m: Machine, shown: Option<StepState>, checks: seq<string>,
                                   events: seq<Event>, state: StepState, g: EngineState, g': EngineState)
    requires Plays(m, shown, checks, events, g)
    requires !(g.at == REVIEW && state.Review?)
    requires InStep(Some(state), g')
    ensures Plays(m, shown, checks, events + [StepEvent(state)], g')
    decreases |events|
  {
    var e := StepEvent(state);
    if events != [] {
      assert (events + [e])[1..] == events[1..] + [e];
      match events[0]
      case StepEvent(st) => PlaysOn(m, Some(st), Kept(shown, checks, st), events[1..], state, g, g');
      case ConfirmationChecked(_) => PlaysOn(m, shown, checks[1..], events[1..], state, g, g');
      case _ => PlaysOn(m, shown, checks, events[1..], state, g, g');
    } else {
      assert ([e])[1..] == [];
    }
  }

  /** Only the step and the disk of the engine matter at the end. */
  lemma {:induction false} PlaysSame(m: Machine, shown: Option<StepState>, checks: seq<string>,
                                     events: seq<Event>, g: EngineState, g': EngineState)
    requires Plays(m, shown, checks, events, g)
    requires g'.at == g.at && g'.disk == g.disk
    ensures Plays(m, shown, checks, events, g')
    decreases |events|
  {
    if events != [] {
      match events[0]
      case StepEvent(st) => PlaysSame(m, Some(st), Kept(shown, checks, st), events[1..], g, g');
      case ConfirmationChecked(_) => PlaysSame(m, shown, checks[1..], events[1..], g, g');
      case _ => PlaysSame(m, shown, checks, events[1..], g, g');
    }
  }

  lemma StepsOfTail(events: seq<Event>)
    requires events != []
    ensures HasStep(events) <==> events[0].StepEvent? || HasStep(events[1..])
  {
    if HasStep(events) && !events[0].StepEvent? {
      var i :| 0 <= i < |events| && events[i].StepEvent?;
      assert events[1..][i - 1].StepEvent?;
    }
    if HasStep(events[1..]) {
      var i :| 0 <= i < |events[1..]| && events[1..][i].StepEvent?;
      assert events[i + 1].StepEvent?;
    }
  }

  /** Without a step on its way the window is where the engine will be. */
  lemma {:induction false} NothingComing(m: Machine, shown: Option<StepState>, checks: seq<string>,
                                         events: seq<Event>, g: EngineState)
    requires Plays(m, shown, checks, events, g)
    requires !HasStep(events)
    ensures InStep(shown, g)
    decreases |events|
  {
    if events != [] {
      StepsOfTail(events);
      match events[0]
      case ConfirmationChecked(_) => NothingComing(m, shown, checks[1..], events[1..], g);
      case StepEvent(_) => assert false;
      case Hello | StageDone(_, _) | Detail(_) => NothingComing(m, shown, checks, events[1..], g);
    }
  }

  /** One more question, answered where it was asked. */
  lemma {:induction false} PlaysAnswer(m: Machine, shown: Option<StepState>, checks: seq<string>,
                                       events: seq<Event>, text: string, g: EngineState)
    requires Plays(m, shown, checks, events, g)
    requires !HasStep(events) && g.at == REVIEW
    ensures g.disk.Some?
    ensures Plays(m, shown, checks + [text], events + [ConfirmationChecked(m.Accepts(g.disk.value, text))], g)
    decreases |events|
  {
    hide Strip;
    NothingComing(m, shown, checks, events, g);
    var e := ConfirmationChecked(m.Accepts(g.disk.value, text));
    if events != [] {
      StepsOfTail(events);
      assert (events + [e])[1..] == events[1..] + [e];
      match events[0]
      case ConfirmationChecked(_) =>
        assert (checks + [text])[1..] == checks[1..] + [text];
        PlaysAnswer(m, shown, checks[1..], events[1..], text, g);
      case StepEvent(_) => assert false;
      case Hello | StageDone(_, _) | Detail(_) => PlaysAnswer(m, shown, checks, events[1..], text, g);
    } else {
      assert checks + [text] == [text] && ([e])[1..] == [] && [text][1..] == [];
    }
  }

  /** One more question, which the next step makes the window forget. */
  lemma {:induction false} PlaysForgotten(m: Machine, shown: Option<StepState>, checks: seq<string>,
                                          events: seq<Event>, text: string, g: EngineState)
    requires Plays(m, shown, checks, events, g)
    requires HasStep(events) && shown.Some? && shown.value.Review?
    ensures Plays(m, shown, checks + [text], events, g)
    decreases |events|
  {
    StepsOfTail(events);
    match events[0]
    case StepEvent(state) =>
      assert Kept(shown, checks + [text], state) == Kept(shown, checks, state);
    case ConfirmationChecked(_) =>
      assert (checks + [text])[1..] == checks[1..] + [text];
      PlaysForgotten(m, shown, checks[1..], events[1..], text, g);
    case _ =>
      PlaysForgotten(m, shown, checks, events[1..], text, g);
  }

  // ── What sending one action does to the future

  /** The three ways the engine answers: nothing, one new step, or one verdict
      given at REVIEW that leaves it there. */
  ghost predicate AnswersInKind(m: Machine, g: EngineState, a: Action, r: Reaction) {
    || (r.1 == [] && r.0.at == g.at && r.0.disk == g.disk)
    || (|r.1| == 1 && r.1[0].StepEvent? && InStep(Some(r.1[0].state), r.0)
        && !(g.at == REVIEW && r.1[0].state.Review?))
    || (g.at == REVIEW && r.0 == g && Judged(a) && (a.Confirm? ==> !Right(m, g, a.typed))
        && r.1 == [ConfirmationChecked(Right(m, g, a.typed))])
  }

  predicate Judged(a: Action) { a.CheckConfirmation? || a.Confirm? }

  lemma EngineAnswersInKind(m: Machine, g: EngineState, a: Action)
    ensures AnswersInKind(m, g, a, Act(m, g, a))
    ensures a.CheckConfirmation? && g.at == REVIEW ==> Act(m, g, a) == (g, [ConfirmationChecked(Right(m, g, a.typed))])
    ensures a.Confirm? && g.at == REVIEW ==>
              (Act(m, g, a).1 == [ConfirmationChecked(false)] <==> !Right(m, g, a.typed))
  {
    hide AcceptableNetwork, ValidHostname, Strip, FindDisk;
  }

  /** The engine says nothing but steps about this action. */
  predicate Unjudged(m: Machine, g: EngineState, a: Action) {
    g.at == REVIEW && Judged(a) ==> a.Confirm? && Right(m, g, a.typed)
  }

  lemma PostPlays(m: Machine, s: Conversation, a: Action)
    requires s.connected
    requires Plays(m, s.window.engine, s.window.checks, Future(m, s), Ahead(m, s))
    requires Unjudged(m, Ahead(m, s), a)
    ensures Plays(m, s.window.engine, s.window.checks, Future(m, Post(s, [a])), Ahead(m, Post(s, [a])))
  {
    hide Act, Right, Plays;
    var g, future := Ahead(m, s), Future(m, s);
    var r := Act(m, g, a);
    DrainOneMore(m, s.engine, s.actions, a);
    EngineAnswersInKind(m, g, a);
    assert Future(m, Post(s, [a])) == future + r.1;
    if r.1 == [] {
      assert future + [] == future;
      PlaysSame(m, s.window.engine, s.window.checks, future, g, r.0);
    } else if r.1[0].StepEvent? {
      assert future + r.1 == future + [StepEvent(r.1[0].state)];
      if g.at == REVIEW { assert !r.1[0].state.Review?; }
      PlaysOn(m, s.window.engine, s.window.checks, future, r.1[0].state, g, r.0);
    }
  }

  /** A question asked in time. */
  lemma QuestionPlays(m: Machine, s: Conversation, text: string)
    requires s.connected && s.window.At(REVIEW)
    requires Plays(m, s.window.engine, s.window.checks, Future(m, s), Ahead(m, s))
    requires !Overtaken(m, s)
    ensures var s' := Post(s, [CheckConfirmation(text)]);
            Plays(m, s.window.engine, s.window.checks + [text], Future(m, s'), Ahead(m, s'))
  {
    hide Act, Plays;
    var a := CheckConfirmation(text);
    var s' := Post(s, [a]);
    var g, future := Ahead(m, s), Future(m, s);
    DrainOneMore(m, s.engine, s.actions, a);
    EngineAnswersInKind(m, g, a);
    if g.at == REVIEW {
      PlaysAnswer(m, s.window.engine, s.window.checks, future, text, g);
      assert Future(m, s') == future + [ConfirmationChecked(Right(m, g, text))];
    } else {
      if !HasStep(future) { NothingComing(m, s.window.engine, s.window.checks, future, g); }
      PostPlays(m, s, a);
      HasStepGrows(future, Act(m, g, a).1);
      assert Future(m, s') == future + Act(m, g, a).1;
      PlaysForgotten(m, s.window.engine, s.window.checks, Future(m, s'), text, Ahead(m, s'));
    }
  }

  lemma HasStepGrows(events: seq<Event>, more: seq<Event>)
    ensures HasStep(events) ==> HasStep(events + more)
  {
    if HasStep(events) {
      var i :| 0 <= i < |events| && events[i].StepEvent?;
      assert (events + more)[i].StepEvent?;
    }
  }

  // ── Every move keeps the conversation aligned

  /** The window takes the next event exactly as the replay does. */
  lemma TakePlays(m: Machine, w: ClientState, events: seq<Event>, g: EngineState)
    requires events != [] && Plays(m, w.engine, w.checks, events, g)
    requires AnswerIsTrue(m, w) && !w.refusedConfirm
    ensures var w' := Take(w, events[0]).0;
            Plays(m, w'.engine, w'.checks, events[1..], g) && AnswerIsTrue(m, w') && !w'.refusedConfirm
  {
    hide Strip;
    match events[0]
    case StepEvent(state) => ShowPlays(w, state);
    case _ =>
  }

  lemma ShowPlays(w: ClientState, state: StepState)
    ensures var w' := Take(w, StepEvent(state)).0;
            && w'.engine == Some(state) && w'.checks == Kept(w.engine, w.checks, state)
            && (w.engine.None? || w.engine.value.Step() != state.Step() ==> w'.checked.None? && !w'.refusedConfirm)
            && (w.engine.Some? && w.engine.value.Step() == state.Step() ==>
                  w'.checked == w.checked && w'.refusedConfirm == w.refusedConfirm)
  {
    hide StillListed;
  }

  lemma TakingKeepsAligned(m: Machine, s: Conversation)
    requires Aligned(m, s) && s.events != []
    ensures Aligned(m, Next(m, s, WindowTakes))
  {
    hide Act, Strip, Plays, AnswerIsTrue, Right, Shows;
    var (w, sent) := Take(s.window, s.events[0]);
    var s1 := s.(window := w, events := s.events[1..]);
    assert Future(m, s)[0] == s.events[0] && Future(m, s)[1..] == Future(m, s1);
    TakePlays(m, s.window, Future(m, s), Ahead(m, s));
    assert Plays(m, w.engine, w.checks, Future(m, s1), Ahead(m, s1));
    if sent != [] {
      assert sent == [Continue];
      PostPlays(m, s1, Continue);
    } else {
      assert s1.actions + [] == s1.actions;
    }
  }

  lemma ActingKeepsAligned(m: Machine, s: Conversation)
    requires Aligned(m, s) && s.connected && s.actions != []
    ensures Aligned(m, Next(m, s, EngineActs))
  {
    hide Plays;
    var s' := Next(m, s, EngineActs);
    assert Ahead(m, s') == Ahead(m, s) && Future(m, s') == Future(m, s) by { hide Act; }
    assert s'.engine.stage.Some? ==> Writing(s'.engine.at) by {
      hide AcceptableNetwork, ValidHostname, Strip, FindDisk;
    }
  }

  lemma TickingKeepsAligned(m: Machine, s: Conversation)
    requires Aligned(m, s) && s.connected
    ensures Aligned(m, Next(m, s, EngineTicks))
  {
    var (g, said) := Tick(m, s.engine);
    if said != [] {
      DrainedDeaf(m, s.engine, s.actions);
      DrainedDeaf(m, g, s.actions);
      var shown, checks := s.window.engine, s.window.checks;
      var s' := Next(m, s, EngineTicks);
      assert Future(m, s) == s.events && Future(m, s') == s.events + said;
      var told := s.events + [said[0]];
      PlaysQuietly(m, shown, checks, s.events, said[0], s.engine);
      PlaysQuietly(m, shown, checks, told, said[1], s.engine);
      if |said| == 3 {
        PlaysOn(m, shown, checks, told + [said[1]], said[2].state, s.engine, g);
        assert s.events + said == told + [said[1]] + [said[2]];
      } else {
        PlaysSame(m, shown, checks, told + [said[1]], s.engine, g);
        assert s.events + said == told + [said[1]];
      }
    } else {
      assert Future(m, Next(m, s, EngineTicks)) == Future(m, s);
    }
  }

  /** A gesture that asks nothing keeps what the window shows and has asked. */
  lemma GestureFacts(w: ClientState, g: Gesture)
    ensures var (w', sent) := Do(w, g);
            && w'.engine == w.engine
            && |sent| <= 1
            && (w'.checked == w.checked || w'.checked.None?)
            && (w'.refusedConfirm ==> w.refusedConfirm)
            && (g.Type? && g.text != "" ==> sent == [CheckConfirmation(g.text)] && w'.checks == w.checks + [g.text])
            && (!(g.Type? && g.text != "") ==> w'.checks == w.checks)
            && (g.Submit? ==> sent == [Confirm(w.typed)])
            && (!(g.Type? && g.text != "") && !g.Submit? ==> sent == [] || !Judged(sent[0]))
  {
  }

  /** A confirmation the window lets through in time is right for the disk in
      force, if it is judged at all. */
  lemma ConfirmIsRight(m: Machine, s: Conversation)
    requires Aligned(m, s) && s.connected && Enabled(s.window, Submit) && !Overtaken(m, s)
    ensures Unjudged(m, Ahead(m, s), Confirm(s.window.typed))
    ensures Ahead(m, s).at == REVIEW ==> Ahead(m, s).disk == Some(s.window.engine.value.disk)
  {
    hide Act, Strip, Plays;
    if Ahead(m, s).at == REVIEW {
      NothingComing(m, s.window.engine, s.window.checks, Future(m, s), Ahead(m, s));
    }
  }

  lemma GesturingKeepsAligned(m: Machine, s: Conversation, g: Gesture)
    requires Aligned(m, s) && Enabled(s.window, g) && Timely(m, s, Gestures(g))
    ensures Aligned(m, Next(m, s, Gestures(g)))
  {
    hide Act, Strip, Plays, Right, Do, Drain;
    var (w, sent) := Do(s.window, g);
    GestureFacts(s.window, g);
    var s1 := s.(window := w);
    if s.connected {
      if g.Type? && g.text != "" {
        QuestionPlays(m, s, g.text);
        assert Post(s1, sent) == Post(s, sent).(window := w);
      } else if sent == [] {
        assert s1.actions + [] == s1.actions;
      } else {
        if g.Submit? { ConfirmIsRight(m, s); }
        assert Ahead(m, s1) == Ahead(m, s) && Future(m, s1) == Future(m, s);
        assert sent == [sent[0]];
        PostPlays(m, s1, sent[0]);
      }
    }
  }

  lemma LinkKeepsAligned(m: Machine, s: Conversation, move: Move)
    requires Aligned(m, s) && (move.Connects? || move.Closes?)
    ensures Aligned(m, Next(m, s, move))
  {
    hide Act, Strip;
    var s' := Next(m, s, move);
    if Possible(s, move) && move.Connects? {
      var opening := if m.scenario == ReportOnly then Media else Welcome;
      assert Future(m, s') == [Hello, StepEvent(opening)];
      assert Future(m, s')[1..] == [StepEvent(opening)] && Future(m, s')[1..][1..] == [];
      assert Plays(m, Some(opening), [], [], Ahead(m, s'));
      assert Plays(m, s'.window.engine, s'.window.checks, [StepEvent(opening)], Ahead(m, s'));
    }
  }

  lemma NextKeepsAligned(m: Machine, s: Conversation, move: Move)
    requires Aligned(m, s) && Timely(m, s, move)
    ensures Aligned(m, Next(m, s, move))
  {
    hide Aligned, Timely, Act, Tick, Do, Take, Post;
    if Possible(s, move) {
      match move
      case Gestures(g) => GesturingKeepsAligned(m, s, g);
      case WindowTakes => TakingKeepsAligned(m, s);
      case EngineActs => ActingKeepsAligned(m, s);
      case EngineTicks => TickingKeepsAligned(m, s);
      case Connects => LinkKeepsAligned(m, s, move);
      case Closes => LinkKeepsAligned(m, s, move);
    } else {
      assert Next(m, s, move) == s;
    }
  }

  lemma OpeningIsAligned(m: Machine)
    ensures Aligned(m, Opening(m))
  {
  }

  // ── The main results

  /** In every run in which nothing is asked or confirmed while overtaken,
      everything in flight stays aligned with what the window has asked. */
  lemma {:induction false} DisciplinedRunIsAligned(m: Machine, moves: seq<Move>)
    requires Disciplined(m, moves)
    ensures Aligned(m, Run(m, moves))
  {
    hide Aligned, Timely, Next;
    if moves == [] {
      OpeningIsAligned(m);
    } else {
      var n := |moves| - 1;
      forall i | 0 <= i < n ensures Timely(m, Run(m, moves[..n][..i]), moves[..n][i]) {
        assert moves[..n][..i] == moves[..i];
      }
      DisciplinedRunIsAligned(m, moves[..n]);
      NextKeepsAligned(m, Run(m, moves[..n]), moves[n]);
    }
  }

  /** What being aligned means for the window: the next answer is to its oldest
      question, about the disk on the screen; an answer on the screen is true;
      and a refusal nobody asked for has never come. */
  lemma AlignedWindowIsTold(m: Machine, s: Conversation)
    requires Aligned(m, s)
    ensures s.events != [] && s.events[0].ConfirmationChecked? ==>
              && s.window.At(REVIEW) && s.window.checks != []
              && s.events[0].valid == m.Accepts(s.window.engine.value.disk, s.window.checks[0])
              && Take(s.window, s.events[0]).0.checked == Some(Answer(s.window.checks[0], s.events[0].valid))
    ensures s.window.At(REVIEW) && s.window.checked.Some? ==>
              s.window.checked.value.valid == m.Accepts(s.window.engine.value.disk, s.window.checked.value.typed)
    ensures !s.window.refusedConfirm
  {
    hide Act, Strip, Drain;
    if s.events != [] { assert Future(m, s)[0] == s.events[0]; }
  }

  /** A confirmation sent in time is never refused, and what it starts, it
      starts on the disk the window's review shows. */
  lemma ConfirmIsNeverRefused(m: Machine, s: Conversation)
    requires Aligned(m, s) && s.connected && Enabled(s.window, Submit) && !Overtaken(m, s)
    ensures var (g, said) := Act(m, Ahead(m, s), Confirm(s.window.typed));
            && (forall i :: 0 <= i < |said| ==> !said[i].ConfirmationChecked?)
            && (Ahead(m, s).at == REVIEW ==> Committed(g.at))
            && (Committed(g.at) && !Committed(Ahead(m, s).at) ==>
                  && g.disk == Some(s.window.engine.value.disk)
                  && m.Accepts(s.window.engine.value.disk, s.window.typed))
  {
    hide Strip, Plays, AcceptableNetwork, ValidHostname, FindDisk, Drain;
    ConfirmIsRight(m, s);
  }

  // ── Exactly when it stays so

  /** The window after hearing all of this and doing nothing else. */
  function Hear(w: ClientState, events: seq<Event>): ClientState
    decreases |events|
  {
    if events == [] then w else Hear(Take(w, events[0]).0, events[1..])
  }

  /** An aligned window that hears everything ends with no question open. */
  lemma {:induction false} HearsItAll(m: Machine, w: ClientState, events: seq<Event>, g: EngineState)
    requires Plays(m, w.engine, w.checks, events, g)
    requires AnswerIsTrue(m, w) && !w.refusedConfirm
    ensures Hear(w, events).checks == [] && InStep(Hear(w, events).engine, g)
    decreases |events|
  {
    hide AnswerIsTrue, Take;
    if events != [] {
      TakePlays(m, w, events, g);
      HearsItAll(m, Take(w, events[0]).0, events[1..], g);
    }
  }

  /** An answer that comes when no question is open does not fit. */
  lemma {:induction false} UnaskedAnswer(m: Machine, w: ClientState, events: seq<Event>, answer: Event, g: EngineState)
    requires AnswerIsTrue(m, w) && !w.refusedConfirm
    requires answer.ConfirmationChecked? && Hear(w, events).checks == []
    ensures !Plays(m, w.engine, w.checks, events + [answer], g)
    decreases |events|
  {
    hide AnswerIsTrue, Take;
    var all := events + [answer];
    if Plays(m, w.engine, w.checks, all, g) && events != [] {
      assert all[0] == events[0] && all[1..] == events[1..] + [answer];
      TakePlays(m, w, all, g);
      UnaskedAnswer(m, Take(w, events[0]).0, events[1..], answer, g);
    }
  }

  lemma {:induction false} HearOneMore(w: ClientState, events: seq<Event>, e: Event)
    ensures Hear(w, events + [e]) == Take(Hear(w, events), e).0
    decreases |events|
  {
    hide Take;
    var all := events + [e];
    if events == [] {
      assert all[0] == e && all[1..] == [];
    } else {
      assert all[0] == events[0] && all[1..] == events[1..] + [e];
      HearOneMore(Take(w, events[0]).0, events[1..], e);
    }
  }

  /** A question asked while overtaken is answered when the window no longer
      holds it: its answer is taken for a refusal. */
  lemma QuestionAskedTooLate(m: Machine, s: Conversation, text: string)
    requires Aligned(m, s) && Enabled(s.window, Type(text)) && text != "" && Overtaken(m, s)
    ensures var s' := Next(m, s, Gestures(Type(text)));
            && Future(m, s') == Future(m, s) + [ConfirmationChecked(Right(m, Ahead(m, s), text))]
            && Hear(s'.window, Future(m, s)).checks == []
            && Hear(s'.window, Future(m, s')).checked.Some?
            && !Hear(s'.window, Future(m, s')).checked.value.valid
            && !Aligned(m, s')
  {
    hide Act, Strip, Right, Plays, Take, Drain;
    var s' := Next(m, s, Gestures(Type(text)));
    var answer := ConfirmationChecked(Right(m, Ahead(m, s), text));
    var future := Future(m, s);
    DrainOneMore(m, s.engine, s.actions, CheckConfirmation(text));
    EngineAnswersInKind(m, Ahead(m, s), CheckConfirmation(text));
    assert Future(m, s') == future + [answer];
    PlaysForgotten(m, s.window.engine, s.window.checks, future, text, Ahead(m, s));
    HearsItAll(m, s'.window, future, Ahead(m, s));
    HearOneMore(s'.window, future, answer);
    TakenAsRefusal(Hear(s'.window, future), answer);
    UnaskedAnswer(m, s'.window, future, answer, Ahead(m, s'));
  }

  lemma TakenAsRefusal(w: ClientState, answer: Event)
    requires w.checks == [] && answer.ConfirmationChecked?
    ensures Take(w, answer).0.checked == Some(Answer(w.typed, false))
  {
  }

  /** Asking keeps the conversation aligned exactly when it is not overtaken. */
  lemma AskingIsSafeExactlyInTime(m: Machine, s: Conversation, text: string)
    requires Aligned(m, s) && Enabled(s.window, Type(text))
    ensures Aligned(m, Next(m, s, Gestures(Type(text)))) <==> text == "" || !Overtaken(m, s)
  {
    hide Aligned, Act, Strip, Right, Plays, Take, Drain, Overtaken, Do;
    if text == "" || !Overtaken(m, s) {
      GesturingKeepsAligned(m, s, Type(text));
    } else {
      QuestionAskedTooLate(m, s, text);
    }
  }

  /** Confirming keeps it aligned exactly when it is not overtaken by a review
      whose disk the text typed is wrong for. */
  lemma ConfirmingIsSafeExactly(m: Machine, s: Conversation)
    requires Aligned(m, s) && Enabled(s.window, Submit)
    ensures Aligned(m, Next(m, s, Gestures(Submit))) <==>
            !Overtaken(m, s) || Right(m, Ahead(m, s), s.window.typed)
  {
    hide Act, Strip, Right, Plays, Take, Drain;
    var s' := Next(m, s, Gestures(Submit));
    var a := Confirm(s.window.typed);
    var future := Future(m, s);
    if !Overtaken(m, s) {
      GesturingKeepsAligned(m, s, Submit);
    } else if Right(m, Ahead(m, s), s.window.typed) {
      PostPlays(m, s, a);
    } else {
      DrainOneMore(m, s.engine, s.actions, a);
      EngineAnswersInKind(m, Ahead(m, s), a);
      assert Future(m, s') == future + [ConfirmationChecked(false)];
      HearsItAll(m, s'.window, future, Ahead(m, s));
      UnaskedAnswer(m, s'.window, future, ConfirmationChecked(false), Ahead(m, s'));
    }
  }
}
