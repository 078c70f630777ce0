/** The engine's side of the installer contract. */
module InstallerEngine {
  import opened Powers
  import opened Text
  import opened InstallerContract

  datatype EngineState = EngineState(
    at: Step,
    disk: Option<Disk>,
    settings: Settings,
    wrote: Option<string>,
    ended: Option<Action>,
    stage: Option<nat>)

  type Reaction = (EngineState, seq<Event>)

  const DEFAULTS := Settings("pt", Automatic, None)
  const PLAN := ["media_check", "install", "verify", "first_boot"]

  function Go(g: EngineState, state: StepState): Reaction {
    (g.(at := state.Step()), [StepEvent(state)])
  }

  /** The state and the events before any action. */
  function Boot(m: Machine): Reaction {
    var start := EngineState(WELCOME, None, DEFAULTS, None, None, None);
    if m.scenario == ReportOnly
    then (start.(at := MEDIA), [Hello, StepEvent(Media)])
    else (start, [Hello, StepEvent(Welcome)])
  }

  predicate IsLowerAlnum(c: char) { 'a' <= c <= 'z' || '0' <= c <= '9' }

  predicate ValidHostname(h: string) {
    && 1 <= |h| <= 63
    && IsLowerAlnum(h[0]) && IsLowerAlnum(h[|h| - 1])
    && forall i :: 0 <= i < |h| ==> IsLowerAlnum(h[i]) || h[i] == '-'
  }

  /** The gateway is on the address's own network, for prefixes under 31. */
  predicate SameNetwork(address: nat, gateway: nat, prefix: nat)
    requires prefix <= 32
  {
    address / Pow2(32 - prefix) == gateway / Pow2(32 - prefix)
  }

  predicate AcceptableNetwork(m: Machine, n: Network) {
    n.Static? ==>
      && n.iface in m.interfaces
      && n.address.Some? && n.gateway.Some? && 1 <= n.prefix <= 32
      && (forall i :: 0 <= i < |n.dns| ==> n.dns[i].Some?)
      && (n.prefix < 31 ==> SameNetwork(n.address.value, n.gateway.value, n.prefix))
  }

  function FindDisk(disks: seq<Disk>, byPath: string): (r: Option<Disk>)
    ensures r.Some? ==> r.value in disks && r.value.byPath == byPath
    ensures r.None? ==> forall d :: d in disks ==> d.byPath != byPath
  {
    if disks == [] then None
    else if disks[0].byPath == byPath then Some(disks[0])
    else FindDisk(disks[1..], byPath)
  }

  predicate Right(m: Machine, g: EngineState, typed: string) {
    g.disk.Some? && m.Accepts(g.disk.value, typed)
  }

  function GoAdvanced(g: EngineState, refused: bool): Reaction {
    Go(g, Advanced(g.settings.hostname, refused))
  }

  function GoNetwork(g: EngineState, refused: bool): Reaction {
    Go(g, NetworkStep(g.settings.network, refused))
  }

  function GoKeyboard(g: EngineState): Reaction {
    Go(g, Keyboard(g.settings.keyboard))
  }

  function GoStorage(m: Machine, g: EngineState, refused: bool): Reaction {
    Go(g, Storage(m.disks, refused))
  }

  /** Without a disk the source raises before it changes anything. */
  function GoReview(g: EngineState): Reaction {
    if g.disk.None? then (g, []) else Go(g, Review(g.disk.value, g.settings))
  }

  function Install(g: EngineState): Reaction {
    Go(g.(stage := Some(0)), Installing)
  }

  /** What the engine does with one action. */
  function Act(m: Machine, g: EngineState, a: Action): Reaction {
    match g.at
    case MEDIA =>
      if a.Rescan? then Go(g, Media)
      else if a.Restart? || a.PowerOff? then (g.(ended := Some(a)), [])
      else (g, [])
    case WELCOME => ActBegin(m, g, a)
    case DRIVEN_ELSEWHERE => ActBegin(m, g, a)
    case COMPATIBILITY =>
      if a.Continue? && m.scenario != BlockedMachine then GoKeyboard(g) else (g, [])
    case KEYBOARD =>
      var g1 := if a.ChooseKeyboard? && a.layout in m.layouts
                then g.(settings := g.settings.(keyboard := a.layout)) else g;
      if a.Continue? then GoNetwork(g1, false) else GoKeyboard(g1)
    case NETWORK =>
      if a.Back? then GoKeyboard(g)
      else if a.Continue? then GoStorage(m, g, false)
      else if a.SetNetwork? && !AcceptableNetwork(m, a.network) then GoNetwork(g, true)
      else if a.SetNetwork? then GoNetwork(g.(settings := g.settings.(network := a.network)), false)
      else GoNetwork(g, false)
    case ADVANCED =>
      if a.Back? then GoStorage(m, g, false)
      else if a.Continue? then GoReview(g)
      else if a.SetHostname? && a.hostname.Some? && a.hostname.value != "" && !ValidHostname(a.hostname.value)
      then GoAdvanced(g, true)
      else if a.SetHostname? then GoAdvanced(g.(settings := g.settings.(hostname := a.hostname)), false)
      else GoAdvanced(g, false)
    case STORAGE =>
      if a.Rescan? then GoStorage(m, g, false)
      else if a.Back? then GoNetwork(g, false)
      else if !a.SelectDisk? then (g, [])
      else
        var d := FindDisk(m.disks, a.byPath);
        if d.None? || !Selectable(d.value) then GoStorage(m, g, true)
        else GoAdvanced(g.(disk := d), false)
    case REVIEW =>
      if a.Back? then GoAdvanced(g, false)
      else if a.CheckConfirmation? then (g, [ConfirmationChecked(Right(m, g, a.typed))])
      else if !a.Confirm? then (g, [])
      else if !Right(m, g, a.typed) then (g, [ConfirmationChecked(false)])
      else if m.scenario == WithKey then Go(g, KeyOffer)
      else Install(g)
    case KEY_OFFER =>
      if a.AnswerKey? then Install(g) else (g, [])
    case INSTALLING => (g, [])
    case INSTALLED => (g, [])
    case FAILED => (g, [])
  }

  function ActBegin(m: Machine, g: EngineState, a: Action): Reaction {
    if !a.Begin? then (g, [])
    else if m.scenario == ElsewhereFirst then Go(g, DrivenElsewhere)
    else Go(g, Compatibility(m.scenario == BlockedMachine))
  }

  function StageLine(name: string, ok: bool): string {
    (if ok then "[OK] " else "[DISK_WRITE_FAILED] ") + name
  }

  /** One stage of the installation ends: the timer fires. */
  function Tick(m: Machine, g: EngineState): Reaction {
    if g.stage.None? || g.stage.value >= |PLAN| || g.disk.None? then (g, [])
    else
      var i := g.stage.value;
      var ok := !(i == 1 && m.scenario == FailingWrite);
      var said := [Detail(StageLine(PLAN[i], ok)), StageDone(PLAN[i], ok)];
      if !ok then (g.(stage := None, at := FAILED), said + [StepEvent(Failed)])
      else if i + 1 < |PLAN| then (g.(stage := Some(i + 1)), said)
      else (g.(stage := None, wrote := Some(g.disk.value.byPath), at := INSTALLED), said + [StepEvent(Installed)])
  }

  /** The engine as an object: `out` holds what it said and nobody took. */
  class Engine {
    const m: Machine
    var at: Step
    var disk: Option<Disk>
    var settings: Settings
    var wrote: Option<string>
    var ended: Option<Action>
    var stage: Option<nat>
    var out: seq<Event>

    ghost function State(): EngineState
      reads this
    {
      EngineState(at, disk, settings, wrote, ended, stage)
    }

    constructor (m: Machine)
      ensures this.m == m && (State(), out) == Boot(m)
    {
      this.m := m;
      disk, settings, wrote, ended, stage := None, DEFAULTS, None, None, None;
      out := [Hello];
      new;
      if m.scenario == ReportOnly {
        Enter(Media);
      } else {
        Enter(Welcome);
      }
      assert out == Boot(m).1;
    }

    method Enter(state: StepState)
      modifies this`at, this`out
      ensures State() == Go(old(State()), state).0
      ensures out == old(out) + Go(old(State()), state).1
    {
      at := state.Step();
      out := out + [StepEvent(state)];
    }

    method BeginInstallation()
      modifies this
      ensures State() == Install(old(State())).0 && out == old(out) + Install(old(State())).1
    {
      Enter(Installing);
      stage := Some(0);
    }

    method PerformAtNetwork(a: Action)
      requires at == NETWORK
      modifies this
      ensures State() == Act(m, old(State()), a).0
      ensures out == old(out) + Act(m, old(State()), a).1
    {
      if a.Back? { Enter(Keyboard(settings.keyboard)); return; }
      if a.Continue? { Enter(Storage(m.disks, false)); return; }
      if a.SetNetwork? {
        if !AcceptableNetwork(m, a.network) { Enter(NetworkStep(settings.network, true)); return; }
        settings := settings.(network := a.network);
      }
      Enter(NetworkStep(settings.network, false));
    }

    method PerformAtAdvanced(a: Action)
      requires at == ADVANCED
      modifies this
      ensures State() == Act(m, old(State()), a).0
      ensures out == old(out) + Act(m, old(State()), a).1
    {
      if a.Back? { Enter(Storage(m.disks, false)); return; }
      if a.Continue? {
        if disk.Some? { Enter(Review(disk.value, settings)); }
        return;
      }
      if a.SetHostname? {
        if a.hostname.Some? && a.hostname.value != "" && !ValidHostname(a.hostname.value) {
          Enter(Advanced(settings.hostname, true));
          return;
        }
        settings := settings.(hostname := a.hostname);
      }
      Enter(Advanced(settings.hostname, false));
    }

    method PerformAtStorage(a: Action)
      requires at == STORAGE
      modifies this
      ensures State() == Act(m, old(State()), a).0
      ensures out == old(out) + Act(m, old(State()), a).1
    {
      if a.Rescan? { Enter(Storage(m.disks, false)); return; }
      if a.Back? { Enter(NetworkStep(settings.network, false)); return; }
      if !a.SelectDisk? { return; }
      var d := FindDisk(m.disks, a.byPath);
      if d.None? || !Selectable(d.value) { Enter(Storage(m.disks, true)); return; }
      disk := d;
      Enter(Advanced(settings.hostname, false));
    }

    method PerformAtReview(a: Action)
      requires at == REVIEW
      modifies this
      ensures State() == Act(m, old(State()), a).0
      ensures out == old(out) + Act(m, old(State()), a).1
    {
      hide Strip;
      if a.Back? { Enter(Advanced(settings.hostname, false)); return; }
      if a.CheckConfirmation? {
        out := out + [ConfirmationChecked(disk.Some? && m.Accepts(disk.value, a.typed))];
        return;
      }
      if a.Confirm? {
        if !(disk.Some? && m.Accepts(disk.value, a.typed)) { out := out + [ConfirmationChecked(false)]; return; }
        if m.scenario == WithKey { Enter(KeyOffer); return; }
        BeginInstallation();
      }
    }

    /** One action taken from the window. */
    method Perform(a: Action)
      modifies this
      ensures State() == Act(m, old(State()), a).0
      ensures out == old(out) + Act(m, old(State()), a).1
    {
      hide AcceptableNetwork, ValidHostname, Strip, FindDisk;
      match at {
        case MEDIA =>
          if a.Rescan? { Enter(Media); }
          if a.Restart? || a.PowerOff? { ended := Some(a); }
        case WELCOME | DRIVEN_ELSEWHERE =>
          if !a.Begin? { return; }
          if m.scenario == ElsewhereFirst { Enter(DrivenElsewhere); return; }
          Enter(Compatibility(m.scenario == BlockedMachine));
        case COMPATIBILITY =>
          if a.Continue? && m.scenario != BlockedMachine { Enter(Keyboard(settings.keyboard)); }
        case KEYBOARD =>
          if a.ChooseKeyboard? && a.layout in m.layouts { settings := settings.(keyboard := a.layout); }
          if a.Continue? { Enter(NetworkStep(settings.network, false)); return; }
          Enter(Keyboard(settings.keyboard));
        case NETWORK => PerformAtNetwork(a);
        case ADVANCED => PerformAtAdvanced(a);
        case STORAGE => PerformAtStorage(a);
        case REVIEW => PerformAtReview(a);
        case KEY_OFFER =>
          if a.AnswerKey? { BeginInstallation(); }
        case _ =>
      }
    }

    /** The timer of the running installation fires. */
    method OnTimer()
      modifies this
      ensures State() == Tick(m, old(State())).0
      ensures out == old(out) + Tick(m, old(State())).1
    {
      if stage.None? || stage.value >= |PLAN| || disk.None? { return; }
      var i := stage.value;
      var ok := !(i == 1 && m.scenario == FailingWrite);
      out := out + [Detail(StageLine(PLAN[i], ok))];
      out := out + [StageDone(PLAN[i], ok)];
      if !ok {
        stage := None;
        Enter(Failed);
      } else if i + 1 < |PLAN| {
        stage := Some(i + 1);
      } else {
        stage, wrote := None, Some(disk.value.byPath);
        Enter(Installed);
      }
    }
  }

  // ── Over every sequence of actions, whoever sends them

  datatype Input = Received(action: Action) | TimerFired

  function React(m: Machine, g: EngineState, i: Input): Reaction {
    match i
    case Received(a) => Act(m, g, a)
    case TimerFired => Tick(m, g)
  }

  /** The engine's state after a sequence of inputs from boot. */
  function After(m: Machine, inputs: seq<Input>): EngineState {
    if inputs == [] then Boot(m).0
    else React(m, After(m, inputs[..|inputs| - 1]), inputs[|inputs| - 1]).0
  }

  predicate Writing(at: Step) { at in {INSTALLING, INSTALLED, FAILED} }

  /** The input at `j` is a selection the engine took: at STORAGE, of the first
      disk listed under that path, and the disk may be erased. */
  ghost predicate SelectsAt(m: Machine, inputs: seq<Input>, j: nat, d: Disk)
    requires j < |inputs|
  {
    && inputs[j] == Received(SelectDisk(d.byPath))
    && After(m, inputs[..j]).at == STORAGE
    && FindDisk(m.disks, d.byPath) == Some(d)
    && Selectable(d)
  }

  /** After every input from `j` on, `d` is the disk in force. */
  ghost predicate KeptSince(m: Machine, inputs: seq<Input>, j: nat, d: Disk) {
    forall k :: j < k <= |inputs| ==> After(m, inputs[..k]).disk == Some(d)
  }

  /** The disk in force is the one last selected, and since then no other was. */
  ghost predicate ChosenAt(m: Machine, inputs: seq<Input>, j: nat, d: Disk)
    requires j < |inputs|
  {
    && SelectsAt(m, inputs, j, d)
    && KeptSince(m, inputs, j, d)
  }

  ghost predicate Chosen(m: Machine, inputs: seq<Input>) {
    var g := After(m, inputs);
    g.disk.Some? ==> exists j: nat :: j < |inputs| && ChosenAt(m, inputs, j, g.disk.value)
  }

  /** The input at `i` is a confirmation the engine accepted for `d`. */
  ghost predicate ConfirmsAt(m: Machine, inputs: seq<Input>, i: nat, d: Disk)
    requires i < |inputs|
  {
    var before := After(m, inputs[..i]);
    && inputs[i].Received? && inputs[i].action.Confirm?
    && before.at == REVIEW && before.disk == Some(d)
    && m.Accepts(d, inputs[i].action.typed)
  }

  ghost predicate ConfirmedSince(m: Machine, inputs: seq<Input>, d: Disk) {
    exists i: nat :: i < |inputs| && ConfirmsAt(m, inputs, i, d) && KeptSince(m, inputs, i, d)
  }

  predicate NeedsDisk(at: Step) { at in {ADVANCED, REVIEW, KEY_OFFER} || Writing(at) }

  /** What one reaction may change: the disk only by a selection the engine
      takes, and writing is reached from REVIEW only by a right confirmation. */
  ghost predicate Careful(m: Machine, g: EngineState, i: Input, g': EngineState) {
    && (g'.stage.Some? ==> g'.at == INSTALLING)
    && (NeedsDisk(g'.at) ==> g'.disk.Some?)
    && (g'.disk != g.disk ==>
          && g'.disk.Some? && Selectable(g'.disk.value) && g.at == STORAGE
          && i == Received(SelectDisk(g'.disk.value.byPath))
          && FindDisk(m.disks, g'.disk.value.byPath) == g'.disk)
    && (Committed(g'.at) && !Committed(g.at) ==>
          && g.at == REVIEW && i.Received? && i.action.Confirm? && Right(m, g, i.action.typed))
    && (Committed(g.at) ==> Committed(g'.at))
    && (Committed(g'.at) ==> g'.disk == g.disk)
  }

  predicate Committed(at: Step) { at == KEY_OFFER || Writing(at) }

  lemma ActIsCareful(m: Machine, g: EngineState, a: Action)
    requires g.stage.Some? ==> g.at == INSTALLING
    requires NeedsDisk(g.at) ==> g.disk.Some?
    ensures Careful(m, g, Received(a), Act(m, g, a).0)
  {
    hide AcceptableNetwork, ValidHostname, Strip;
  }

  lemma TickIsCareful(m: Machine, g: EngineState)
    requires g.stage.Some? ==> g.at == INSTALLING
    requires NeedsDisk(g.at) ==> g.disk.Some?
    ensures Careful(m, g, TimerFired, Tick(m, g).0)
  {
  }

  lemma ReactionIsCareful(m: Machine, g: EngineState, i: Input)
    requires g.stage.Some? ==> g.at == INSTALLING
    requires NeedsDisk(g.at) ==> g.disk.Some?
    ensures Careful(m, g, i, React(m, g, i).0)
  {
    hide Act, Tick, Careful;
    match i
    case Received(a) => ActIsCareful(m, g, a);
    case TimerFired => TickIsCareful(m, g);
  }

  /** A disk still in force after one more input that keeps it. */
  lemma StillKept(m: Machine, inputs: seq<Input>, j: nat, d: Disk)
    requires j + 1 < |inputs|
    requires KeptSince(m, inputs[..|inputs| - 1], j, d)
    requires After(m, inputs).disk == Some(d)
    ensures KeptSince(m, inputs, j, d)
    ensures inputs[..j] == inputs[..|inputs| - 1][..j]
  {
    hide After;
    var n := |inputs| - 1;
    assert inputs[..j] == inputs[..n][..j];
    forall k | j < k <= |inputs| ensures After(m, inputs[..k]).disk == Some(d) {
      if k <= n { assert inputs[..k] == inputs[..n][..k]; } else { assert inputs[..k] == inputs; }
    }
  }

  lemma StillConfirmed(m: Machine, inputs: seq<Input>, d: Disk)
    requires inputs != []
    requires ConfirmedSince(m, inputs[..|inputs| - 1], d)
    requires After(m, inputs).disk == Some(d)
    ensures ConfirmedSince(m, inputs, d)
  {
    hide After, Strip;
    var earlier := inputs[..|inputs| - 1];
    var i: nat :| i < |earlier| && ConfirmsAt(m, earlier, i, d) && KeptSince(m, earlier, i, d);
    StillKept(m, inputs, i, d);
    assert ConfirmsAt(m, inputs, i, d);
  }

  /** Whatever is sent, the disk in force is the last one the engine let be
      selected, and it may be erased. */
  lemma {:induction false} LastSelectionStands(m: Machine, inputs: seq<Input>)
    ensures Chosen(m, inputs)
    ensures NeedsDisk(After(m, inputs).at) ==> After(m, inputs).disk.Some?
    ensures After(m, inputs).stage.Some? ==> After(m, inputs).at == INSTALLING
  {
    hide Act, Tick, Strip, FindDisk;
    if inputs != [] {
      var n := |inputs| - 1;
      var earlier := inputs[..n];
      LastSelectionStands(m, earlier);
      var before, after := After(m, earlier), After(m, inputs);
      ReactionIsCareful(m, before, inputs[n]);
      if after.disk.Some? {
        var d := after.disk.value;
        if after.disk == before.disk {
          var j: nat :| j < |earlier| && ChosenAt(m, earlier, j, d);
          StillKept(m, inputs, j, d);
          assert ChosenAt(m, inputs, j, d);
        } else {
          assert inputs[..n + 1] == inputs;
          assert ChosenAt(m, inputs, n, d);
        }
      }
    }
  }

  /** The engine erases nothing that was not confirmed: in every run it writes
      only to a disk that may be erased, that was the last one selected, and
      whose token was confirmed at REVIEW with that very disk in force. */
  lemma {:induction false} OnlyConfirmedDiskIsWritten(m: Machine, inputs: seq<Input>)
    requires Committed(After(m, inputs).at)
    ensures var g := After(m, inputs);
            && g.disk.Some? && Selectable(g.disk.value) && g.disk.value in m.disks
            && Chosen(m, inputs)
            && ConfirmedSince(m, inputs, g.disk.value)
  {
    hide Act, Tick, Strip, FindDisk;
    LastSelectionStands(m, inputs);
    if inputs != [] {
      var n := |inputs| - 1;
      var earlier := inputs[..n];
      var before, after := After(m, earlier), After(m, inputs);
      LastSelectionStands(m, earlier);
      ReactionIsCareful(m, before, inputs[n]);
      assert inputs[..n + 1] == inputs;
      if Committed(before.at) {
        OnlyConfirmedDiskIsWritten(m, earlier);
        StillConfirmed(m, inputs, before.disk.value);
      } else {
        assert ConfirmsAt(m, inputs, n, after.disk.value);
      }
    }
  }
}
