/** The engine's road through its steps: where each action leads, what it is told
    there, and what is kept of it. */
module InstallerSteps {
  import opened Powers
  import opened Text
  import opened InstallerContract
  import opened InstallerEngine
  import opened InstallerOutcome
  import Cidr

  // ── The road

  const ROAD := [COMPATIBILITY, KEYBOARD, NETWORK, STORAGE, ADVANCED, REVIEW]

  /** A disk that may be erased is the first listed under this path. */
  predicate Choosable(m: Machine, byPath: string) {
    exists i :: 0 <= i < |m.disks| && IsFirst(m.disks, i, byPath) && !m.disks[i].protection.Protected?
  }

  predicate IsFirst(disks: seq<Disk>, i: nat, byPath: string)
    requires i < |disks|
  {
    disks[i].byPath == byPath && forall j :: 0 <= j < i ==> disks[j].byPath != byPath
  }

  lemma {:induction false} FoundIsFirst(disks: seq<Disk>, i: nat, byPath: string)
    requires i < |disks| && IsFirst(disks, i, byPath)
    ensures FindDisk(disks, byPath) == Some(disks[i])
  {
    if i > 0 {
      assert disks[0].byPath != byPath;
      assert forall j :: 0 <= j < i - 1 ==> disks[1..][j] == disks[j + 1];
      FoundIsFirst(disks[1..], i - 1, byPath);
    }
  }

  lemma {:induction false} FirstIsSomewhere(disks: seq<Disk>, byPath: string)
    ensures FindDisk(disks, byPath).Some? ==>
            exists i :: 0 <= i < |disks| && IsFirst(disks, i, byPath) && FindDisk(disks, byPath) == Some(disks[i])
  {
    if disks != [] {
      if disks[0].byPath == byPath {
        assert IsFirst(disks, 0, byPath);
      } else {
        FirstIsSomewhere(disks[1..], byPath);
        if FindDisk(disks, byPath).Some? {
          var i :| 0 <= i < |disks[1..]| && IsFirst(disks[1..], i, byPath) && FindDisk(disks[1..], byPath) == Some(disks[1..][i]);
          assert forall j :: 0 < j < i + 1 ==> disks[j] == disks[1..][j - 1];
          assert IsFirst(disks, i + 1, byPath);
        }
      }
    }
  }

  lemma ChoosableIsFound(m: Machine, byPath: string)
    ensures Choosable(m, byPath) <==> FindDisk(m.disks, byPath).Some? && Selectable(FindDisk(m.disks, byPath).value)
  {
    hide IsFirst, FindDisk;
    FirstIsSomewhere(m.disks, byPath);
    if Choosable(m, byPath) {
      var i :| 0 <= i < |m.disks| && IsFirst(m.disks, i, byPath) && !m.disks[i].protection.Protected?;
      FoundIsFirst(m.disks, i, byPath);
    }
  }

  /** On the road `Continue` leads on and `Back` leads back, by one step; a disk is
      what leads on from the list of disks, and a right confirmation from the
      review. Nothing else moves the engine, and a blocked machine does not start. */
  lemma RoadIsWalked(m: Machine, g: EngineState, a: Action, i: nat)
    requires InPlan(m, g) && i < |ROAD| && g.at == ROAD[i]
    ensures var at := Act(m, g, a).0.at;
      && (a.Continue? && i != 3 && i != 5 && !(i == 0 && m.scenario == BlockedMachine) ==> at == ROAD[i + 1])
      && (a.Back? && i >= 2 ==> at == ROAD[i - 1])
      && (i == 3 && a.SelectDisk? && Choosable(m, a.byPath) ==> at == ROAD[4])
      && (at != g.at ==>
            || (a.Continue? && i != 3 && i != 5 && !(i == 0 && m.scenario == BlockedMachine))
            || (a.Back? && i >= 2)
            || (i == 3 && a.SelectDisk? && Choosable(m, a.byPath))
            || (i == 5 && a.Confirm? && Right(m, g, a.typed)))
      && (i == 5 && a.Confirm? && Right(m, g, a.typed) ==> at == if m.scenario == WithKey then KEY_OFFER else INSTALLING)
  {
    hide AcceptableNetwork, ValidHostname, Strip, FindDisk, Choosable;
    if a.SelectDisk? { ChoosableIsFound(m, a.byPath); }
  }

  /** Going on and coming back loses nothing, and a disk selected stays selected. */
  lemma BackUndoes(m: Machine, g: EngineState, byPath: string)
    requires InPlan(m, g)
    ensures g.at in {KEYBOARD, NETWORK, ADVANCED} ==> Act(m, Act(m, g, Continue).0, Back).0 == g
    ensures g.at == STORAGE && Choosable(m, byPath) ==>
              Act(m, Act(m, g, SelectDisk(byPath)).0, Back).0 == g.(disk := FindDisk(m.disks, byPath))
  {
    hide AcceptableNetwork, ValidHostname, Strip, FindDisk, Choosable;
    ChoosableIsFound(m, byPath);
  }

  // ── Where a machine of each kind can be

  predicate MayBe(m: Machine, at: Step) {
    match m.scenario
    case ReportOnly => at == MEDIA
    case BlockedMachine => at == WELCOME || at == COMPATIBILITY
    case ElsewhereFirst => at == WELCOME || at == DRIVEN_ELSEWHERE
    case WithKey => at != MEDIA && at != DRIVEN_ELSEWHERE && at != FAILED
    case PlainInstall => at != MEDIA && at != DRIVEN_ELSEWHERE && at != KEY_OFFER && at != FAILED
    case FailingWrite => at != MEDIA && at != DRIVEN_ELSEWHERE && at != KEY_OFFER && at != INSTALLED
  }

  lemma ReactionStaysWhereItMayBe(m: Machine, g: EngineState, i: Input)
    requires InPlan(m, g) && MayBe(m, g.at)
    ensures MayBe(m, React(m, g, i).0.at)
  {
    hide AcceptableNetwork, ValidHostname, Strip, FindDisk;
  }

  /** In every run the engine is only where its machine allows: one that reports
      only never leaves its report, and neither a blocked machine nor one driven
      elsewhere gets past its notice. */
  lemma {:induction false} EachMachineHasItsSteps(m: Machine, inputs: seq<Input>)
    ensures MayBe(m, After(m, inputs).at)
  {
    hide React, MayBe;
    if inputs == [] {
      BootMayBe(m);
    } else {
      var earlier := inputs[..|inputs| - 1];
      EachMachineHasItsSteps(m, earlier);
      var _ := InstallationIsTold(m, earlier);
      ReactionStaysWhereItMayBe(m, After(m, earlier), inputs[|inputs| - 1]);
    }
  }

  lemma BootMayBe(m: Machine)
    ensures MayBe(m, Boot(m).0.at)
  {
  }

  /** What was last asked of a machine that is to restart or go off. */
  function LastEnd(inputs: seq<Input>): Option<Action> {
    if inputs == [] then None
    else
      match inputs[|inputs| - 1]
      case Received(Restart) => Some(Restart)
      case Received(PowerOff) => Some(PowerOff)
      case _ => LastEnd(inputs[..|inputs| - 1])
  }

  /** The machine is told to restart or to go off exactly when a session that only
      reports is asked to, and is told what was asked last. */
  lemma {:induction false} EndsExactlyWhenAsked(m: Machine, inputs: seq<Input>)
    ensures After(m, inputs).ended == if m.scenario == ReportOnly then LastEnd(inputs) else None
  {
    hide Tick, Act, MayBe;
    if inputs != [] {
      var earlier := inputs[..|inputs| - 1];
      EndsExactlyWhenAsked(m, earlier);
      EachMachineHasItsSteps(m, earlier);
      EndingStep(m, After(m, earlier), inputs[|inputs| - 1]);
    }
  }

  lemma EndingStep(m: Machine, g: EngineState, i: Input)
    requires MayBe(m, g.at)
    ensures React(m, g, i).0.ended ==
            if m.scenario == ReportOnly && i == Received(Restart) then Some(Restart)
            else if m.scenario == ReportOnly && i == Received(PowerOff) then Some(PowerOff)
            else g.ended
  {
    hide AcceptableNetwork, ValidHostname, Strip, FindDisk;
  }

  // ── What is set

  /** One letter or digit, or several with letters, digits and hyphens between the
      first and the last, up to sixty-three in all. */
  ghost predicate Hostname(h: string) {
    || (exists c: char :: LowerOrDigit(c) && h == [c])
    || (exists first: char, middle: string, last: char :: Spells(h, first, middle, last))
  }

  predicate Spells(h: string, first: char, middle: string, last: char) {
    && LowerOrDigit(first) && LowerOrDigit(last) && |middle| <= 61
    && (forall i :: 0 <= i < |middle| ==> LowerOrDigit(middle[i]) || middle[i] == '-')
    && h == [first] + middle + [last]
  }

  predicate LowerOrDigit(c: char) { 97 <= c as int <= 122 || 48 <= c as int <= 57 }

  lemma SameLetters(c: char)
    ensures IsLowerAlnum(c) <==> LowerOrDigit(c)
  {
  }

  lemma HostnamesAreValid(h: string)
    ensures ValidHostname(h) <==> Hostname(h)
  {
    hide IsLowerAlnum, LowerOrDigit;
    forall c: char ensures IsLowerAlnum(c) <==> LowerOrDigit(c) { SameLetters(c); }
    if ValidHostname(h) {
      if |h| == 1 {
        assert h == [h[0]];
      } else {
        assert Spells(h, h[0], h[1..|h| - 1], h[|h| - 1]);
      }
    }
    if Hostname(h) && |h| != 1 {
      var first: char, middle: string, last: char :| Spells(h, first, middle, last);
      SpeltIsValid(h, first, middle, last);
    }
  }

  lemma SpeltIsValid(h: string, first: char, middle: string, last: char)
    requires Spells(h, first, middle, last)
    ensures ValidHostname(h)
  {
    hide IsLowerAlnum, LowerOrDigit;
    forall c: char ensures IsLowerAlnum(c) <==> LowerOrDigit(c) { SameLetters(c); }
    forall i | 0 <= i < |h| ensures IsLowerAlnum(h[i]) || h[i] == '-' {
      assert h[i] == if i == 0 then first else if i <= |middle| then middle[i - 1] else last;
    }
  }

  /** Addresses are numbers of thirty-two bits. */
  predicate Quads(n: Network) {
    n.Static? ==> (n.address.Some? ==> n.address.value < Pow2(32)) && (n.gateway.Some? ==> n.gateway.value < Pow2(32))
  }

  /** A listed interface, addresses that are ones, and a gateway in the address's
      own block, unless the block has no room for one. */
  predicate Reachable(m: Machine, n: Network)
    requires Quads(n)
  {
    n.Static? ==>
      && n.iface in m.interfaces && n.address.Some? && n.gateway.Some? && None !in n.dns
      && 1 <= n.prefix <= 32
      && (n.prefix in {31, 32} || Cidr.Contains(Cidr.Cidr(Cidr.V4(n.address.value), n.prefix), Cidr.V4(n.gateway.value)))
  }

  lemma NetworkIsAccepted(m: Machine, n: Network)
    requires Quads(n)
    ensures AcceptableNetwork(m, n) <==> Reachable(m, n)
  {
    hide Pow2, SameNetwork;
    if n.Static? && n.address.Some? && n.gateway.Some? && 1 <= n.prefix <= 32 {
      hide Cidr.Contains;
      Cidr.GatewayTestIsMembership(n.address.value, n.gateway.value, n.prefix);
    }
    if n.Static? { assert None in n.dns <==> exists i :: 0 <= i < |n.dns| && n.dns[i].None?; }
  }

  /** What each action does to the settings: only a listed layout, only reachable
      network settings and only a well-formed host name, or none, are taken, each
      at its own step, and nothing else changes them. */
  lemma SettingsAreTakenExactly(m: Machine, g: EngineState, a: Action)
    requires a.SetNetwork? ==> Quads(a.network)
    ensures var s := Act(m, g, a).0.settings;
      && s.keyboard == (if g.at == KEYBOARD && a.ChooseKeyboard? && a.layout in m.layouts then a.layout else g.settings.keyboard)
      && s.network == (if g.at == NETWORK && a.SetNetwork? && Reachable(m, a.network) then a.network else g.settings.network)
      && s.hostname == (if g.at == ADVANCED && a.SetHostname?
                           && (a.hostname.None? || a.hostname.value == "" || Hostname(a.hostname.value))
                        then a.hostname else g.settings.hostname)
  {
    hide AcceptableNetwork, ValidHostname, Hostname, Strip, FindDisk, Reachable;
    if a.SetNetwork? { NetworkIsAccepted(m, a.network); }
    if a.SetHostname? && a.hostname.Some? { HostnamesAreValid(a.hostname.value); }
  }

  /** Time sets nothing. */
  lemma TimeSetsNothing(m: Machine, g: EngineState)
    ensures Tick(m, g).0.settings == g.settings
  {
  }

  // ── What is told

  /** The step told is the one the engine is at, with what is in force there. */
  predicate TellsTrue(m: Machine, g: EngineState, state: StepState) {
    && state.Step() == g.at
    && match state
       case Compatibility(blocked) => blocked <==> m.scenario == BlockedMachine
       case Keyboard(chosen) => chosen == g.settings.keyboard
       case NetworkStep(network, _) => network == g.settings.network
       case Storage(disks, _) => disks == m.disks
       case Advanced(hostname, _) => hostname == g.settings.hostname
       case Review(disk, settings) => Some(disk) == g.disk && settings == g.settings
       case _ => true
  }

  predicate IsRefused(state: StepState) {
    (state.NetworkStep? || state.Storage? || state.Advanced?) && state.refused
  }

  /** Whatever the engine tells of its step is true, and it speaks of a refusal
      exactly when it was asked for something there and did not take it. */
  lemma StepsToldAreTrue(m: Machine, g: EngineState, a: Action)
    requires InPlan(m, g) && (a.SetNetwork? ==> Quads(a.network))
    ensures var (g', said) := Act(m, g, a);
      && |said| <= 1
      && (said != [] && said[0].StepEvent? ==>
            && TellsTrue(m, g', said[0].state)
            && (IsRefused(said[0].state) <==>
                  || (g.at == NETWORK && a.SetNetwork? && !Reachable(m, a.network))
                  || (g.at == STORAGE && a.SelectDisk? && !Choosable(m, a.byPath))
                  || (g.at == ADVANCED && a.SetHostname? && a.hostname.Some? && a.hostname.value != "" && !Hostname(a.hostname.value))))
      && (g'.at != g.at ==> said != [] && said[0].StepEvent?)
  {
    hide AcceptableNetwork, ValidHostname, Hostname, Strip, FindDisk, Reachable, Choosable;
    if a.SetNetwork? { NetworkIsAccepted(m, a.network); }
    if a.SetHostname? && a.hostname.Some? { HostnamesAreValid(a.hostname.value); }
    if a.SelectDisk? { ChoosableIsFound(m, a.byPath); }
  }

  // ── The token

  /** A text typed is right exactly when, without the white space around it and in
      capitals, it is the token in capitals. */
  lemma RightIsTheToken(m: Machine, g: EngineState, left: string, text: string, right: string)
    requires AllSpace(left) && AllSpace(right) && text != [] && Trimmed(text)
    ensures Right(m, g, left + text + right) <==> g.disk.Some? && m.upper(text) == m.upper(g.disk.value.token)
  {
    StripPadded(left, text, right);
  }
}
