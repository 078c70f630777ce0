/** The installer window: a client that shows what the engine says, asks, and
    shows the answer. */
module InstallerClient {
  import opened Text
  import opened InstallerContract

  datatype Answer = Answer(typed: string, valid: bool)

  datatype Page = WelcomePage | LanguagePage

  /** The setting sent and not yet seen accepted. */
  datatype Pending = NoSetting | NetworkSetting | AdvancedSetting

  datatype ClientState = ClientState(
    engine: Option<StepState>,
    page: Page,
    chosen: Option<string>,
    dialog: bool,
    typed: string,
    checks: seq<string>,
    checked: Option<Answer>,
    refusedConfirm: bool,
    stages: seq<(string, bool)>,
    details: seq<string>,
    busy: bool,
    pending: Pending)
  {
    predicate At(s: Step) { engine.Some? && engine.value.Step() == s }
  }

  const FRESH := ClientState(None, WelcomePage, None, false, "", [], None, false, [], [], false, NoSetting)
  const DETAIL_LIMIT := 400

  // ── What the engine says

  predicate StillListed(c: ClientState, disks: seq<Disk>) {
    exists d :: d in disks && c.chosen == Some(d.byPath) && Selectable(d)
  }

  function Reset(c: ClientState): ClientState {
    c.(dialog := false, typed := "", checks := [], checked := None, refusedConfirm := false)
  }

  predicate Awaited(p: Pending, state: StepState) {
    (p == NetworkSetting && state.NetworkStep?) || (p == AdvancedSetting && state.Advanced?)
  }

  function Refused(state: StepState): bool {
    match state
    case NetworkStep(_, r) => r
    case Advanced(_, r) => r
    case _ => false
  }

  /** The window after a step, before a pending setting is looked at. */
  function Shows(c: ClientState, state: StepState): ClientState {
    var changed := c.engine.None? || c.engine.value.Step() != state.Step();
    var c1 := c.(engine := Some(state), busy := false);
    var c2 := if changed then Reset(c1) else c1;
    var c3 := if changed && state.Welcome?
              then c2.(page := WelcomePage, chosen := None, stages := [], details := []) else c2;
    if state.Storage? && !StillListed(c3, state.disks) then c3.(chosen := None) else c3
  }

  /** The window after one event, and what it sends by itself. */
  function Take(c: ClientState, e: Event): (ClientState, seq<Action>) {
    match e
    case Hello => (c, [])
    case StepEvent(state) =>
      var c1 := Shows(c, state);
      if !Awaited(c1.pending, state) then (c1, [])
      else if Refused(state) then (c1.(pending := NoSetting), [])
      else (c1.(pending := NoSetting, busy := true), [Continue])
    case ConfirmationChecked(valid) =>
      if c.checks == []
      then (c.(refusedConfirm := !valid, checked := Some(Answer(c.typed, false)), busy := false), [])
      else (c.(checks := c.checks[1..], checked := Some(Answer(c.checks[0], valid))), [])
    case StageDone(name, ok) => (c.(stages := c.stages + [(name, ok)]), [])
    case Detail(line) =>
      var more := c.details + [line];
      (c.(details := if |more| > DETAIL_LIMIT then more[1..] else more), [])
  }

  // ── What the person does

  datatype Gesture =
    | Start
    | ToWelcome
    | BeginClick
    | ContinueClick
    | BackClick
    | RescanClick
    | RestartClick
    | PowerOffClick
    | ChooseClick(path: string)
    | SelectClick
    | KeyboardClick(layout: string)
    | NetNext(network: Network)
    | AdvNext(hostname: Option<string>)
    | OpenConfirm
    | CloseConfirm
    | Type(text: string)
    | Submit
    | KeyAnswer(authorise: bool)

  /** The control for a gesture is on the screen and takes it. Most buttons are
      disabled while busy; the disk and keyboard cards, the rescan link and
      Enter in the computer's name are not. */
  predicate Enabled(c: ClientState, g: Gesture) {
    var welcome := c.engine.None? || c.At(WELCOME);
    match g
    case Start => c.At(WELCOME) && c.page == WelcomePage && !c.busy
    case ToWelcome => welcome && c.page == LanguagePage && !c.busy
    case BeginClick => ((welcome && c.page == LanguagePage) || c.At(DRIVEN_ELSEWHERE)) && !c.busy
    case ContinueClick =>
      && c.engine.Some? && !c.busy
      && (c.engine.value.Keyboard? || (c.engine.value.Compatibility? && !c.engine.value.blocked))
    case BackClick => (c.At(NETWORK) || c.At(ADVANCED) || c.At(REVIEW)) && !c.busy
    case RescanClick => c.At(STORAGE) || c.At(MEDIA)
    case RestartClick => !welcome && !c.busy
    case PowerOffClick => c.At(MEDIA) && !c.busy
    case ChooseClick(path) =>
      && c.At(STORAGE)
      && exists d :: d in c.engine.value.disks && d.byPath == path && Selectable(d)
    case SelectClick => c.At(STORAGE) && c.chosen.Some? && !c.busy
    case KeyboardClick(_) => c.At(KEYBOARD)
    case NetNext(_) => c.At(NETWORK) && !c.busy
    case AdvNext(_) => c.At(ADVANCED)
    case OpenConfirm => c.At(REVIEW) && !c.busy
    case CloseConfirm => c.dialog
    case Type(_) => c.At(REVIEW) && c.dialog
    case Submit => c.At(REVIEW) && c.dialog && c.checked == Some(Answer(c.typed, true))
    case KeyAnswer(_) => c.At(KEY_OFFER) && !c.busy
  }

  /** The window after a gesture, and what it sends. */
  function Do(c: ClientState, g: Gesture): (ClientState, seq<Action>) {
    match g
    case Start => (c.(page := LanguagePage), [])
    case ToWelcome => (c.(page := WelcomePage), [])
    case BeginClick => (c.(busy := true), [Begin])
    case ContinueClick => (c.(busy := true), [Continue])
    case BackClick => (c.(busy := true), [Back])
    case RescanClick => (c, [Rescan])
    case RestartClick => (c.(busy := true), [Restart])
    case PowerOffClick => (c.(busy := true), [PowerOff])
    case ChooseClick(path) => (c.(chosen := Some(path)), [])
    case SelectClick => if c.chosen.Some? then (c.(busy := true), [SelectDisk(c.chosen.value)]) else (c, [])
    case KeyboardClick(layout) => (c.(busy := true), [ChooseKeyboard(layout)])
    case NetNext(n) => (c.(busy := true, pending := NetworkSetting), [SetNetwork(n)])
    case AdvNext(h) => (c.(busy := true, pending := AdvancedSetting), [SetHostname(h)])
    case OpenConfirm => (c.(dialog := true, typed := "", checked := None, refusedConfirm := false), [])
    case CloseConfirm => (c.(dialog := false, typed := "", checked := None), [])
    case Type(text) =>
      var c1 := c.(typed := text, refusedConfirm := false);
      if text == "" then (c1, []) else (c1.(checks := c.checks + [text]), [CheckConfirmation(text)])
    case Submit => (c.(busy := true), [Confirm(c.typed)])
    case KeyAnswer(yes) => (c.(busy := true), [AnswerKey(yes)])
  }

  /** The exchange ended: the window goes back to waiting. */
  function Disconnected(c: ClientState): ClientState {
    c.(engine := None, page := WelcomePage, busy := false, dialog := false)
  }

  /** The window as an object; `sent` is what it handed to the link. */
  class Client {
    var engine: Option<StepState>
    var page: Page
    var chosen: Option<string>
    var dialog: bool
    var typed: string
    var checks: seq<string>
    var checked: Option<Answer>
    var refusedConfirm: bool
    var stages: seq<(string, bool)>
    var details: seq<string>
    var busy: bool
    var pending: Pending
    var sent: seq<Action>

    ghost function State(): ClientState
      reads this
    {
      ClientState(engine, page, chosen, dialog, typed, checks, checked, refusedConfirm, stages, details, busy, pending)
    }

    constructor ()
      ensures State() == FRESH && sent == []
    {
      engine, page, chosen, dialog, typed := None, WelcomePage, None, false, "";
      checks, checked, refusedConfirm := [], None, false;
      stages, details, busy, pending, sent := [], [], false, NoSetting, [];
    }

    method Send(a: Action)
      modifies this`sent
      ensures sent == old(sent) + [a]
    {
      sent := sent + [a];
    }

    method Clear()
      modifies this
      ensures State() == Reset(old(State())) && sent == old(sent)
    {
      dialog, typed, checks, checked, refusedConfirm := false, "", [], None, false;
    }

    method Show(state: StepState)
      modifies this
      ensures State() == Shows(old(State()), state) && sent == old(sent)
    {
      hide StillListed;
      var changed := engine.None? || engine.value.Step() != state.Step();
      engine, busy := Some(state), false;
      if changed {
        Clear();
        if state.Welcome? {
          page, chosen, stages, details := WelcomePage, None, [], [];
        }
      }
      if state.Storage? {
        DropLostChoice(state.disks);
      }
    }

    method DropLostChoice(disks: seq<Disk>)
      modifies this`chosen
      ensures chosen == if StillListed(old(State()), disks) then old(chosen) else None
    {
      if !(exists d :: d in disks && chosen == Some(d.byPath) && Selectable(d)) {
        chosen := None;
      }
    }

    method TakeStep(state: StepState)
      modifies this
      ensures State() == Take(old(State()), StepEvent(state)).0
      ensures sent == old(sent) + Take(old(State()), StepEvent(state)).1
    {
      hide Shows;
      Show(state);
      if Awaited(pending, state) {
        pending := NoSetting;
        if !Refused(state) {
          busy := true;
          Send(Continue);
        }
      }
    }

    method TakeEvent(e: Event)
      modifies this
      ensures State() == Take(old(State()), e).0
      ensures sent == old(sent) + Take(old(State()), e).1
    {
      match e {
        case Hello =>
        case StepEvent(state) => TakeStep(state);
        case ConfirmationChecked(valid) =>
          if checks == [] {
            refusedConfirm, checked, busy := !valid, Some(Answer(typed, false)), false;
          } else {
            var asked := checks[0];
            checks := checks[1..];
            checked := Some(Answer(asked, valid));
          }
        case StageDone(name, ok) => stages := stages + [(name, ok)];
        case Detail(line) =>
          details := details + [line];
          if |details| > DETAIL_LIMIT { details := details[1..]; }
      }
    }

    /** The text in the confirmation field changed. */
    method OnInput(text: string)
      modifies this
      ensures State() == Do(old(State()), Type(text)).0
      ensures sent == old(sent) + Do(old(State()), Type(text)).1
    {
      typed, refusedConfirm := text, false;
      if typed != "" {
        checks := checks + [typed];
        Send(CheckConfirmation(typed));
      }
    }

    /** The form was submitted: only what the engine said is right is confirmed. */
    method OnSubmit()
      modifies this
      ensures old(checked) == Some(Answer(old(typed), true)) ==>
                && State() == Do(old(State()), Submit).0
                && sent == old(sent) + Do(old(State()), Submit).1
      ensures old(checked) != Some(Answer(old(typed), true)) ==> State() == old(State()) && sent == old(sent)
    {
      if !(checked.Some? && checked.value.typed == typed && checked.value.valid) { return; }
      busy := true;
      Send(Confirm(typed));
    }

    method OnClick(g: Gesture)
      requires !g.Type? && !g.Submit?
      modifies this
      ensures State() == Do(old(State()), g).0
      ensures sent == old(sent) + Do(old(State()), g).1
    {
      match g {
        case Start => page := LanguagePage;
        case ToWelcome => page := WelcomePage;
        case BeginClick => busy := true; Send(Begin);
        case ContinueClick => busy := true; Send(Continue);
        case BackClick => busy := true; Send(Back);
        case RescanClick => Send(Rescan);
        case RestartClick => busy := true; Send(Restart);
        case PowerOffClick => busy := true; Send(PowerOff);
        case ChooseClick(path) => chosen := Some(path);
        case SelectClick => if chosen.Some? { busy := true; Send(SelectDisk(chosen.value)); }
        case KeyboardClick(layout) => busy := true; Send(ChooseKeyboard(layout));
        case NetNext(n) => busy, pending := true, NetworkSetting; Send(SetNetwork(n));
        case AdvNext(h) => busy, pending := true, AdvancedSetting; Send(SetHostname(h));
        case OpenConfirm => dialog, typed, checked, refusedConfirm := true, "", None, false;
        case CloseConfirm => dialog, typed, checked := false, "", None;
        case KeyAnswer(yes) => busy := true; Send(AnswerKey(yes));
      }
    }

    method OnClosed()
      modifies this
      ensures State() == Disconnected(old(State())) && sent == old(sent)
    {
      engine, page, busy, dialog := None, WelcomePage, false, false;
    }
  }
}
