/** One control pressed while nothing is in flight: what the window and the engine
    come to when the answer is there. */
module InstallerExchange {
  import opened Powers
  import opened Text
  import opened InstallerContract
  import opened InstallerEngine
  import opened InstallerClient
  import opened InstallerConversation
  import opened InstallerOutcome
  import opened InstallerSteps

  /** Nothing is in flight, and the window shows the step the engine is at. */
  predicate Settled(m: Machine, s: Conversation) {
    && s.connected && s.actions == [] && s.events == []
    && InPlan(m, s.engine) && MayBe(m, s.engine.at)
    && s.window.engine.Some? && TellsTrue(m, s.engine, s.window.engine.value)
    && s.window.pending == NoSetting && !s.window.busy
  }

  function Pressed(m: Machine, s: Conversation, g: Gesture): Conversation { Next(m, s, Gestures(g)) }

  /** The engine takes what was sent, and the window what was said. */
  function Answered(m: Machine, s: Conversation): Conversation { Next(m, Next(m, s, EngineActs), WindowTakes) }

  /** The window before and after is the same but for the step and what goes with
      it. */
  lemma StepAnswered(m: Machine, s: Conversation, a: Action)
    requires s.connected && s.actions == [a] && s.events == [] && InPlan(m, s.engine) && MayBe(m, s.engine.at)
    requires var said := Act(m, s.engine, a).1; said != [] && said[0].StepEvent? && (a.SetNetwork? ==> Quads(a.network))
    ensures var (g, said) := Act(m, s.engine, a); var t := Answered(m, s);
      && t.engine == g && t.events == [] && t.connected
      && t.window == Take(s.window, said[0]).0 && t.actions == Take(s.window, said[0]).1
      && t.window.engine == Some(said[0].state) && TellsTrue(m, g, said[0].state)
      && InPlan(m, g) && MayBe(m, g.at)
  {
    hide Act, Take, TellsTrue, InPlan, MayBe, Reachable, Choosable, Hostname;
    var (g, said) := Act(m, s.engine, a);
    StepsToldAreTrue(m, s.engine, a);
    ActInPlan(m, s.engine, a);
    ReactionStaysWhereItMayBe(m, s.engine, Received(a));
    assert said == [said[0]] && said[1..] == [];
    assert [a][1..] == [] && [] + said == said;
    TakesStep(s.window, said[0].state);
    assert [] + Take(s.window, said[0]).1 == Take(s.window, said[0]).1;
  }

  lemma TakesStep(w: ClientState, state: StepState)
    ensures var (w', sent) := Take(w, StepEvent(state));
      && w'.engine == Some(state)
      && (w.pending == NoSetting ==> sent == [] && !w'.busy && w'.pending == NoSetting)
      && (Awaited(w.pending, state) ==> w'.pending == NoSetting)
      && (Awaited(w.pending, state) && IsRefused(state) ==> sent == [] && !w'.busy)
      && (Awaited(w.pending, state) && !IsRefused(state) ==> sent == [Continue] && w'.busy)
  {
    hide StillListed;
  }

  /** A control that moves the installer: pressed, it waits; answered, it is settled
      at the next step. */
  ghost predicate Leads(m: Machine, s: Conversation, g: Gesture, at: Step) {
    && Enabled(s.window, g) && Pressed(m, s, g).window.busy
    && var t := Answered(m, Pressed(m, s, g));
       Settled(m, t) && t.window.At(at) && t.engine.at == at
       && t.engine.settings == s.engine.settings && t.engine.disk == s.engine.disk
  }

  lemma MoveLeads(m: Machine, s: Conversation, g: Gesture, a: Action)
    requires Settled(m, s) && Enabled(s.window, g) && Do(s.window, g) == (s.window.(busy := true), [a])
    requires Act(m, s.engine, a).0.at != s.engine.at && !a.SelectDisk? && !a.SetNetwork?
    requires Act(m, s.engine, a).0.settings == s.engine.settings && Act(m, s.engine, a).0.disk == s.engine.disk
    ensures Leads(m, s, g, Act(m, s.engine, a).0.at)
  {
    hide Act, Take, TellsTrue, InPlan, MayBe, Enabled, Do, Answered;
    var p := Pressed(m, s, g);
    assert [] + [a] == [a];
    assert p == s.(window := s.window.(busy := true), actions := [a]);
    hide Reachable, Choosable, Hostname;
    StepsToldAreTrue(m, s.engine, a);
    StepAnswered(m, p, a);
    var said := Act(m, s.engine, a).1;
    TakesStep(p.window, said[0].state);
    TellsItsStep(m, Act(m, s.engine, a).0, said[0].state);
  }

  lemma TellsItsStep(m: Machine, g: EngineState, state: StepState)
    requires TellsTrue(m, g, state)
    ensures state.Step() == g.at
  {
  }

  /** Each control that leads on or back does so from its own step, wherever the
      machine lets it. */
  lemma ControlsLead(m: Machine, s: Conversation)
    requires Settled(m, s)
    ensures s.window.At(WELCOME) && s.window.page == LanguagePage ==>
              Leads(m, s, BeginClick, if m.scenario == ElsewhereFirst then DRIVEN_ELSEWHERE else COMPATIBILITY)
    ensures s.window.At(COMPATIBILITY) && m.scenario != BlockedMachine ==> Leads(m, s, ContinueClick, KEYBOARD)
    ensures s.window.At(KEYBOARD) ==> Leads(m, s, ContinueClick, NETWORK)
    ensures s.window.At(NETWORK) ==> Leads(m, s, BackClick, KEYBOARD)
    ensures s.window.At(ADVANCED) ==> Leads(m, s, BackClick, STORAGE)
    ensures s.window.At(REVIEW) ==> Leads(m, s, BackClick, ADVANCED)
    ensures s.window.At(KEY_OFFER) ==> forall yes :: Leads(m, s, KeyAnswer(yes), INSTALLING)
  {
    hide Leads, TellsTrue, InPlan, MayBe, AcceptableNetwork, ValidHostname, Strip, FindDisk;
    TellsItsStep(m, s.engine, s.window.engine.value);
    match s.engine.at
    case WELCOME =>
      if s.window.page == LanguagePage { MoveLeads(m, s, BeginClick, Begin); }
    case COMPATIBILITY =>
      if m.scenario != BlockedMachine {
        NotBlocked(m, s);
        MoveLeads(m, s, ContinueClick, Continue);
      }
    case KEYBOARD => MoveLeads(m, s, ContinueClick, Continue);
    case NETWORK => MoveLeads(m, s, BackClick, Back);
    case ADVANCED => MoveLeads(m, s, BackClick, Back);
    case REVIEW => MoveLeads(m, s, BackClick, Back);
    case KEY_OFFER =>
      forall yes ensures Leads(m, s, KeyAnswer(yes), INSTALLING) { MoveLeads(m, s, KeyAnswer(yes), AnswerKey(yes)); }
    case _ =>
  }

  lemma NotBlocked(m: Machine, s: Conversation)
    requires Settled(m, s) && s.engine.at == COMPATIBILITY && m.scenario != BlockedMachine
    ensures s.window.engine.value.Compatibility? && !s.window.engine.value.blocked
  {
  }

  /** The disk marked, selected: the engine has it, and goes on. */
  lemma MarkedIsSelected(m: Machine, s: Conversation, byPath: string)
    requires Settled(m, s) && s.window.At(STORAGE) && s.window.chosen == Some(byPath) && Choosable(m, byPath)
    ensures Enabled(s.window, SelectClick)
    ensures var t := Answered(m, Pressed(m, s, SelectClick));
      && Settled(m, t) && t.window.At(ADVANCED)
      && t.engine.disk == FindDisk(m.disks, byPath) && t.engine.disk.Some? && t.engine.settings == s.engine.settings
  {
    hide TellsTrue, InPlan, MayBe, FindDisk, Choosable, Answered, Take;
    TellsItsStep(m, s.engine, s.window.engine.value);
    ChoosableIsFound(m, byPath);
    var a := SelectDisk(byPath);
    var p := Pressed(m, s, SelectClick);
    assert [] + [a] == [a];
    StepAnswered(m, p, a);
    TakesStep(p.window, Act(m, s.engine, a).1[0].state);
  }

  /** A layout, pressed, is in force and on the screen when the engine lists it. */
  lemma LayoutIsTaken(m: Machine, s: Conversation, layout: string)
    requires Settled(m, s) && s.window.At(KEYBOARD)
    ensures Enabled(s.window, KeyboardClick(layout))
    ensures var t := Answered(m, Pressed(m, s, KeyboardClick(layout)));
      && Settled(m, t) && t.window.engine == Some(Keyboard(t.engine.settings.keyboard))
      && t.engine.settings.keyboard == (if layout in m.layouts then layout else s.engine.settings.keyboard)
  {
    hide TellsTrue, InPlan, MayBe, Answered, Take;
    TellsItsStep(m, s.engine, s.window.engine.value);
    var a := ChooseKeyboard(layout);
    var p := Pressed(m, s, KeyboardClick(layout));
    assert [] + [a] == [a];
    StepAnswered(m, p, a);
    TakesStep(p.window, Act(m, s.engine, a).1[0].state);
  }

  /** The list of disks, asked for again, comes again. */
  lemma ListComesAgain(m: Machine, s: Conversation)
    requires Settled(m, s) && s.window.At(STORAGE)
    ensures Enabled(s.window, RescanClick)
    ensures var t := Answered(m, Pressed(m, s, RescanClick));
            Settled(m, t) && t.engine == s.engine && t.window.engine == Some(Storage(m.disks, false))
  {
    hide TellsTrue, InPlan, MayBe, Answered, Take;
    TellsItsStep(m, s.engine, s.window.engine.value);
    var p := Pressed(m, s, RescanClick);
    assert [] + [Rescan] == [Rescan];
    StepAnswered(m, p, Rescan);
    TakesStep(p.window, Act(m, s.engine, Rescan).1[0].state);
  }

  /** A session that only reports is restarted or turned off when asked. */
  lemma ReportEnds(m: Machine, s: Conversation, g: Gesture)
    requires Settled(m, s) && s.window.At(MEDIA) && (g.RestartClick? || g.PowerOffClick?)
    ensures Enabled(s.window, g)
    ensures Next(m, Pressed(m, s, g), EngineActs).engine.ended == Some(if g.RestartClick? then Restart else PowerOff)
  {
    hide InPlan;
    assert [] + [Restart] == [Restart] && [] + [PowerOff] == [PowerOff];
  }

  /** Settings that the engine takes go on by themselves to the next step; others
      stay where they are, with the refusal on the screen. */
  lemma NetworkGoesOn(m: Machine, s: Conversation, n: Network)
    requires Settled(m, s) && s.window.At(NETWORK) && Quads(n)
    ensures Enabled(s.window, NetNext(n))
    ensures var t := Answered(m, Pressed(m, s, NetNext(n)));
      if Reachable(m, n) then
        && t.window.busy
        && var u := Answered(m, t);
           Settled(m, u) && u.window.At(STORAGE) && u.engine.settings == s.engine.settings.(network := n)
           && u.engine.disk == s.engine.disk
      else
        Settled(m, t) && t.engine == s.engine && t.window.engine == Some(NetworkStep(s.engine.settings.network, true))
  {
    hide TellsTrue, InPlan, MayBe, Answered, Take, Reachable, AcceptableNetwork, FindDisk, ValidHostname, Strip;
    TellsItsStep(m, s.engine, s.window.engine.value);
    NetworkIsAccepted(m, n);
    var a := SetNetwork(n);
    var p := Pressed(m, s, NetNext(n));
    assert [] + [a] == [a];
    StepAnswered(m, p, a);
    TakesStep(p.window, Act(m, s.engine, a).1[0].state);
    if Reachable(m, n) {
      var t := Answered(m, p);
      StepAnswered(m, t, Continue);
      TakesStep(t.window, Act(m, t.engine, Continue).1[0].state);
    }
  }

  lemma HostnameGoesOn(m: Machine, s: Conversation, h: Option<string>)
    requires Settled(m, s) && s.window.At(ADVANCED)
    ensures Enabled(s.window, AdvNext(h))
    ensures var t := Answered(m, Pressed(m, s, AdvNext(h)));
      if h.None? || h.value == "" || Hostname(h.value) then
        && t.window.busy
        && var u := Answered(m, t);
           Settled(m, u) && u.window.At(REVIEW) && u.engine.settings == s.engine.settings.(hostname := h)
           && u.engine.disk == s.engine.disk
      else
        Settled(m, t) && t.engine == s.engine && t.window.engine == Some(Advanced(s.engine.settings.hostname, true))
  {
    hide TellsTrue, Answered, Take, Hostname, AcceptableNetwork, FindDisk, ValidHostname, Strip, MayBe, InPlan;
    TellsItsStep(m, s.engine, s.window.engine.value);
    DiskIsThere(m, s.engine);
    if h.Some? { HostnamesAreValid(h.value); }
    var a := SetHostname(h);
    var p := Pressed(m, s, AdvNext(h));
    assert [] + [a] == [a];
    StepAnswered(m, p, a);
    TakesStep(p.window, Act(m, s.engine, a).1[0].state);
    if h.None? || h.value == "" || Hostname(h.value) {
      var t := Answered(m, p);
      StepAnswered(m, t, Continue);
      TakesStep(t.window, Act(m, t.engine, Continue).1[0].state);
    }
  }

  lemma DiskIsThere(m: Machine, g: EngineState)
    requires InPlan(m, g) && g.at == ADVANCED
    ensures g.disk.Some?
  {
  }

  /** The window at the review with its dialog open, once a text typed there has
      been answered. */
  function TextAnswered(m: Machine, s: Conversation, text: string): Conversation {
    Answered(m, Pressed(m, Pressed(m, s, OpenConfirm), Type(text)))
  }

  /** A text typed in the dialog is asked about, and its answer is on the screen. */
  lemma TextIsAnswered(m: Machine, s: Conversation, text: string)
    requires Settled(m, s) && s.window.At(REVIEW) && s.window.checks == [] && text != ""
    ensures Enabled(s.window, OpenConfirm) && Enabled(Pressed(m, s, OpenConfirm).window, Type(text))
    ensures var t := TextAnswered(m, s, text);
      && Settled(m, t) && t.engine == s.engine && t.window.engine == s.window.engine
      && t.window.dialog && t.window.typed == text && t.window.checks == []
      && t.window.checked == Some(Answer(text, Right(m, s.engine, text)))
  {
    hide TellsTrue, InPlan, MayBe, Right, Act, Take, Answered;
    AtItsStep(m, s);
    var o := Pressed(m, s, OpenConfirm);
    assert o == s.(window := s.window.(dialog := true, typed := "", checked := None, refusedConfirm := false));
    assert [] + [CheckConfirmation(text)] == [CheckConfirmation(text)] && [] + [text] == [text];
    CheckAnswered(m, Pressed(m, o, Type(text)), text);
  }

  lemma CheckAnswered(m: Machine, p: Conversation, text: string)
    requires p.connected && p.actions == [CheckConfirmation(text)] && p.events == []
    requires p.window.checks == [text] && p.engine.at == REVIEW
    ensures Answered(m, p)
         == p.(actions := [], window := p.window.(checks := [], checked := Some(Answer(text, Right(m, p.engine, text)))))
  {
    hide Right, Shows;
    var a, said := CheckConfirmation(text), [ConfirmationChecked(Right(m, p.engine, text))];
    assert Act(m, p.engine, a) == (p.engine, said);
    assert [a][1..] == [] && [] + said == said && said[1..] == [] && [text][1..] == [];
  }

  lemma AtItsStep(m: Machine, s: Conversation)
    requires Settled(m, s)
    ensures s.window.At(s.engine.at)
  {
  }

  /** A right text, and no other, can be confirmed, and that starts the installation
      or the question of the key. */
  lemma RightTextLeads(m: Machine, s: Conversation, text: string)
    requires Settled(m, s) && s.window.At(REVIEW) && s.window.checks == [] && text != ""
    ensures var t := TextAnswered(m, s, text);
      && (Enabled(t.window, Submit) <==> Right(m, s.engine, text))
      && (Right(m, s.engine, text) ==> Leads(m, t, Submit, if m.scenario == WithKey then KEY_OFFER else INSTALLING))
  {
    hide TellsTrue, InPlan, MayBe, Strip, Right, Leads, TextAnswered;
    TextIsAnswered(m, s, text);
    AtItsStep(m, s);
    var t := TextAnswered(m, s, text);
    if Right(m, s.engine, text) {
      MoveLeads(m, t, Submit, Confirm(text));
    }
  }

  // ── Starting over, and waiting in vain

  /** Told of the welcome, a window that was elsewhere has nothing left of before but
      the setting it waits for. */
  lemma WelcomeStartsOver(w: ClientState)
    ensures !w.At(WELCOME) ==> Take(w, StepEvent(Welcome)).0 == FRESH.(engine := Some(Welcome), pending := w.pending)
    ensures w.At(WELCOME) ==> Take(w, StepEvent(Welcome)).0 == w.(engine := Some(Welcome), busy := false)
  {
    hide StillListed;
  }

  /** A control that makes the window wait is answered, except those that restart the
      machine or turn it off: where the engine tells its step at whatever is asked, it
      tells it again, and elsewhere it says nothing. */
  lemma WaitingIsAnsweredExactly(m: Machine, s: Conversation, g: Gesture, a: Action)
    requires Settled(m, s) && Enabled(s.window, g) && Do(s.window, g).0.busy && Do(s.window, g).1 == [a]
    ensures Act(m, s.engine, a).1 == [] <==>
            (g.RestartClick? || g.PowerOffClick?) && s.engine.at !in {KEYBOARD, NETWORK, ADVANCED}
  {
    hide TellsTrue, InPlan, AcceptableNetwork, ValidHostname, Strip, FindDisk, MayBe;
    TellsItsStep(m, s.engine, s.window.engine.value);
    SettledFacts(m, s);
  }

  lemma SettledFacts(m: Machine, s: Conversation)
    requires Settled(m, s)
    ensures s.engine.at in {ADVANCED, REVIEW, KEY_OFFER} ==> s.engine.disk.Some?
    ensures s.window.engine.value.Compatibility? && !s.window.engine.value.blocked ==> m.scenario != BlockedMachine
  {
  }
}
