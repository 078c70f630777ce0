/** The controls of the window, step by step and action by action, and what each one
    leaves behind. */
module InstallerControls {
  import opened Text
  import opened InstallerContract
  import opened InstallerEngine
  import opened InstallerClient
  import opened InstallerConversation
  import opened InstallerOutcome
  import opened InstallerSteps
  import opened InstallerExchange

  // ── Which controls there are

  /** Before the engine has said where it is, and at each step: what can be pressed. */
  predicate Offers(w: ClientState, g: Gesture) {
    if g.CloseConfirm? then w.dialog
    else if w.engine.None? then w.page == LanguagePage && !w.busy && (g.ToWelcome? || g.BeginClick?)
    else
      match w.engine.value
      case Welcome => !w.busy && if w.page == WelcomePage then g.Start? else g.ToWelcome? || g.BeginClick?
      case Media => g.RescanClick? || (!w.busy && (g.RestartClick? || g.PowerOffClick?))
      case DrivenElsewhere => !w.busy && (g.BeginClick? || g.RestartClick?)
      case Compatibility(blocked) => !w.busy && (g.RestartClick? || (g.ContinueClick? && !blocked))
      case Keyboard(_) => g.KeyboardClick? || (!w.busy && (g.ContinueClick? || g.RestartClick?))
      case NetworkStep(_, _) => !w.busy && (g.NetNext? || g.BackClick? || g.RestartClick?)
      case Storage(disks, _) =>
        || g.RescanClick?
        || (g.ChooseClick? && exists d <- disks :: d.byPath == g.path && !d.protection.Protected?)
        || (!w.busy && (g.RestartClick? || (g.SelectClick? && w.chosen.Some?)))
      case Advanced(_, _) => g.AdvNext? || (!w.busy && (g.BackClick? || g.RestartClick?))
      case Review(_, _) =>
        || (w.dialog && (g.Type? || (g.Submit? && w.checked == Some(Answer(w.typed, true)))))
        || (!w.busy && (g.OpenConfirm? || g.BackClick? || g.RestartClick?))
      case KeyOffer => !w.busy && (g.KeyAnswer? || g.RestartClick?)
      case Installing => !w.busy && g.RestartClick?
      case Installed => !w.busy && g.RestartClick?
      case Failed => !w.busy && g.RestartClick?
  }

  /** Each step offers its own controls and no other. */
  lemma ControlsOfEachStep(w: ClientState, g: Gesture)
    ensures Enabled(w, g) <==> Offers(w, g)
  {
  }

  // ── What is sent

  /** Which control sends an action. */
  predicate Sends(w: ClientState, a: Action, g: Gesture) {
    match a
    case Begin => g.BeginClick?
    case Continue => g.ContinueClick?
    case Back => g.BackClick?
    case Rescan => g.RescanClick?
    case Restart => g.RestartClick?
    case PowerOff => g.PowerOffClick?
    case ChooseKeyboard(layout) => g == KeyboardClick(layout)
    case SetNetwork(network) => g == NetNext(network)
    case SetHostname(hostname) => g == AdvNext(hostname)
    case SelectDisk(byPath) => g.SelectClick? && w.chosen == Some(byPath)
    case CheckConfirmation(typed) => g == Type(typed) && typed != ""
    case Confirm(typed) => g.Submit? && typed == w.typed
    case AnswerKey(authorise) => g == KeyAnswer(authorise)
  }

  /** Every action is sent by its control, alone, and by no other; and a window waits
      after each of them but a new look at the disks and a question. */
  lemma ActionsOfEachControl(w: ClientState, g: Gesture)
    ensures forall a: Action :: Sends(w, a, g) <==> Do(w, g).1 == [a]
    ensures |Do(w, g).1| <= 1
    ensures Do(w, g).0.busy <==> w.busy || (Do(w, g).1 != [] && !g.RescanClick? && !g.Type?)
  {
  }

  // ── What is left behind

  /** A dialog opens empty, and closed it leaves nothing but a refusal on the screen
      and the questions asked; what is typed takes the refusal away. */
  lemma DialogOpensAndCloses(w: ClientState, text: string)
    ensures Do(w, OpenConfirm).0 == w.(dialog := true, typed := "", checked := None, refusedConfirm := false)
    ensures Do(Do(w, OpenConfirm).0, CloseConfirm).0 == w.(dialog := false, typed := "", checked := None, refusedConfirm := false)
    ensures Do(w, Type(text)).0
         == w.(typed := text, refusedConfirm := false, checks := if text == "" then w.checks else w.checks + [text])
  {
  }

  /** The first two pages lead to each other. */
  lemma PagesLeadToEachOther(w: ClientState)
    requires w.page == WelcomePage
    ensures Do(w, Start).0 == w.(page := LanguagePage)
    ensures Do(Do(w, Start).0, ToWelcome) == (w, [])
  {
  }

  /** A confirmation that the engine does not accept comes back as a refusal: the text
      is not right any more, and the window does not wait. */
  lemma RefusalIsShown(m: Machine, s: Conversation)
    requires s.connected && s.actions == [] && s.events == [] && s.engine.at == REVIEW && s.window.At(REVIEW)
    requires s.window.checks == [] && Enabled(s.window, Submit) && !Right(m, s.engine, s.window.typed)
    ensures var t := Answered(m, Pressed(m, s, Submit));
      && t == s.(window := s.window.(refusedConfirm := true, checked := Some(Answer(s.window.typed, false)), busy := false))
      && !Enabled(t.window, Submit)
  {
    hide Right;
    var a, said := Confirm(s.window.typed), [ConfirmationChecked(false)];
    assert [] + [a] == [a] && [a][1..] == [] && [] + said == said && said[1..] == [];
    assert Act(m, s.engine, a) == (s.engine, said);
  }

  /** A link that closes takes the step and the dialog away, and the window waits for
      nothing; a new one starts at the welcome. */
  lemma ClosingLeaves(w: ClientState)
    ensures Disconnected(w) == w.(engine := None, page := WelcomePage, busy := false, dialog := false)
    ensures Take(Disconnected(w), StepEvent(Welcome)).0 == FRESH.(engine := Some(Welcome), pending := w.pending)
  {
    hide StillListed;
    WelcomeStartsOver(Disconnected(w));
  }
}
