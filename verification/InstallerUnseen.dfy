/** A run in which the window confirms one disk and the engine is bound to erase
    another, which has never been under review on the screen: the condition of the
    results on what is erased is needed. It takes a window that runs far behind
    the engine: the list of disks read again, Enter and Back pressed, before what
    they bring arrives. */
module InstallerUnseen {
  import opened Text
  import opened InstallerContract
  import opened InstallerEngine
  import opened InstallerClient
  import opened InstallerConversation
  import opened InstallerTracing
  import opened InstallerErasure
  import opened InstallerBench

  // Two disks that may be erased, with one token: it is the end of a serial.

  const P := Disk("p", ELIGIBLE, "AB")
  const Q := Disk("q", ELIGIBLE, "AB")
  const TWINS := Machine(PlainInstall, [P, Q], [], [], (s: string) => s)

  const OPTIONS := StepEvent(Advanced(None, false))
  const DISKS := StepEvent(Storage([P, Q], false))
  const NET := StepEvent(NetworkStep(Automatic, false))
  const REVIEW_P := StepEvent(Review(P, DEFAULTS))
  const REVIEW_Q := StepEvent(Review(Q, DEFAULTS))
  const YES := ConfirmationChecked(true)

  /** The window at a step, with a disk marked. */
  function Showing(told: Event, chosen: string, busy: bool, pending: Pending): ClientState
    requires told.StepEvent?
  {
    FRESH.(engine := Some(told.state), page := LanguagePage, chosen := Some(chosen), busy := busy, pending := pending)
  }

  /** The window at the review of the first disk, with the dialog open. */
  function Asking(chosen: string, typed: string, checks: seq<string>, checked: Option<Answer>): ClientState {
    Showing(REVIEW_P, chosen, false, NoSetting).(dialog := true, typed := typed, checks := checks, checked := checked)
  }

  function State(w: ClientState, events: seq<Event>, at: Step, disk: Option<Disk>): Conversation {
    Conversation(w, [], EngineAt(at, disk), events, true)
  }

  /** What the engine answers to the actions of this run, and where it goes. */
  function Reply(at: Step, disk: Option<Disk>, a: Action): (Step, Option<Disk>, seq<Event>) {
    match at
    case ADVANCED =>
      if a.Back? then (STORAGE, disk, [DISKS])
      else if a.Continue? then (REVIEW, disk, [if disk == Some(P) then REVIEW_P else REVIEW_Q])
      else (ADVANCED, disk, [OPTIONS])
    case STORAGE =>
      if a.Rescan? then (STORAGE, disk, [DISKS])
      else if a.Back? then (NETWORK, disk, [NET])
      else if a.SelectDisk? then (ADVANCED, if a.byPath == "p" then Some(P) else Some(Q), [OPTIONS])
      else (STORAGE, disk, [])
    case NETWORK => if a.Continue? then (STORAGE, disk, [DISKS]) else (NETWORK, disk, [NET])
    case REVIEW =>
      if a.Back? then (ADVANCED, disk, [OPTIONS])
      else if a.CheckConfirmation? then (REVIEW, disk, [YES])
      else (REVIEW, disk, [])
    case _ => (at, disk, [])
  }

  /** The actions of this run, where they are sent. */
  predicate Used(at: Step, disk: Option<Disk>, a: Action) {
    && at in {ADVANCED, STORAGE, NETWORK, REVIEW}
    && (disk == Some(P) || disk == Some(Q) || (disk == None && at == STORAGE))
    && a in {Back, Continue, Rescan, SelectDisk("p"), SelectDisk("q"), SetHostname(None), CheckConfirmation("AB")}
    && !(at == NETWORK && a == Back)
  }

  lemma Replies(at: Step, disk: Option<Disk>, a: Action)
    requires Used(at, disk, a)
    ensures var (at', disk', said) := Reply(at, disk, a); Act(TWINS, EngineAt(at, disk), a) == (EngineAt(at', disk'), said)
  {
    hide Strip, ValidHostname, AcceptableNetwork;
    SpelledAlike();
    assert FindDisk([P, Q], "p") == Some(P);
    assert [P, Q][1..] == [Q] && FindDisk([Q], "q") == Some(Q) && FindDisk([P, Q], "q") == Some(Q);
  }

  /** What was sent reaches the engine at once: only what it says waits. */
  lemma Reaches(moves: seq<Move>, s: Conversation, w: ClientState, events: seq<Event>, at: Step, disk: Option<Disk>, a: Action)
    returns (longer: seq<Move>, t: Conversation)
    requires Run(TWINS, moves) == s && s == State(w, events, at, disk).(actions := [a]) && Used(at, disk, a)
    ensures Run(TWINS, longer) == t
    ensures var (at', disk', said) := Reply(at, disk, a); t == State(w, events + said, at', disk')
  {
    hide Act, Strip, Do, Take, Reply;
    Replies(at, disk, a);
    longer, t := OneMore(TWINS, moves, s, EngineActs);
    assert [a][1..] == [];
  }

  predicate AtHand(s: Conversation) {
    s == State(s.window, s.events, s.engine.at, s.engine.disk)
  }

  lemma Gestured(moves: seq<Move>, s: Conversation, g: Gesture) returns (longer: seq<Move>, t: Conversation)
    requires Run(TWINS, moves) == s && AtHand(s) && Enabled(s.window, g) && Do(s.window, g).1 == []
    ensures Run(TWINS, longer) == t && t == s.(window := Do(s.window, g).0)
  {
    hide Act, Do;
    longer, t := OneMore(TWINS, moves, s, Gestures(g));
  }

  lemma Presses(moves: seq<Move>, s: Conversation, g: Gesture) returns (longer: seq<Move>, t: Conversation)
    requires Run(TWINS, moves) == s && AtHand(s) && Enabled(s.window, g)
    requires |Do(s.window, g).1| == 1 && Used(s.engine.at, s.engine.disk, Do(s.window, g).1[0])
    ensures Run(TWINS, longer) == t
    ensures var (at, disk, said) := Reply(s.engine.at, s.engine.disk, Do(s.window, g).1[0]);
            t == State(Do(s.window, g).0, s.events + said, at, disk)
  {
    hide Act, Do, Reply, Used;
    var (w, sent) := Do(s.window, g);
    longer, t := OneMore(TWINS, moves, s, Gestures(g));
    assert s.actions + sent == [sent[0]];
    longer, t := Reaches(longer, t, w, s.events, s.engine.at, s.engine.disk, sent[0]);
  }

  /** The window after one more step is told: what it sends by itself is Continue,
      when it waited for this step. */
  function Told(w: ClientState, told: Event): ClientState
    requires told.StepEvent? && w.chosen.Some?
  {
    var goesOn := Awaited(w.pending, told.state);
    Showing(told, w.chosen.value, goesOn, if goesOn then NoSetting else w.pending)
  }

  lemma WindowTold(w: ClientState, told: Event)
    requires told in {OPTIONS, DISKS, NET, REVIEW_P}
    requires w.engine.Some? && w.chosen.Some? && w.chosen.value in {"p", "q"}
    requires w == Showing(StepEvent(w.engine.value), w.chosen.value, w.busy, w.pending)
             || (w.engine.value.Review? && told != REVIEW_P
                 && w == Asking(w.chosen.value, w.typed, w.checks, w.checked).(busy := w.busy))
    ensures Take(w, told) == (Told(w, told), if Awaited(w.pending, told.state) then [Continue] else [])
  {
    if told == DISKS {
      var d := if w.chosen.value == "p" then P else Q;
      assert d in [P, Q] && w.chosen == Some(d.byPath) && Selectable(d);
    }
  }

  lemma Takes(moves: seq<Move>, s: Conversation) returns (longer: seq<Move>, t: Conversation)
    requires Run(TWINS, moves) == s && AtHand(s) && s.events != [] && s.events[0] in {OPTIONS, DISKS, NET, REVIEW_P}
    requires var w := s.window;
      && w.engine.Some? && w.chosen.Some? && w.chosen.value in {"p", "q"}
      && (w == Showing(StepEvent(w.engine.value), w.chosen.value, w.busy, w.pending)
          || (w.engine.value.Review? && s.events[0] != REVIEW_P
              && w == Asking(w.chosen.value, w.typed, w.checks, w.checked).(busy := w.busy)))
    requires Used(s.engine.at, s.engine.disk, Continue)
    ensures Run(TWINS, longer) == t
    ensures var w := Told(s.window, s.events[0]);
            if !Awaited(s.window.pending, s.events[0].state) then t == State(w, s.events[1..], s.engine.at, s.engine.disk)
            else
              var (at, disk, said) := Reply(s.engine.at, s.engine.disk, Continue);
              t == State(w, s.events[1..] + said, at, disk)
  {
    hide Act, Take, Reply, Used, Told;
    WindowTold(s.window, s.events[0]);
    var (w, sent) := Take(s.window, s.events[0]);
    longer, t := OneMore(TWINS, moves, s, WindowTakes);
    assert s.actions + sent == sent;
    if sent != [] {
      longer, t := Reaches(longer, t, w, s.events[1..], s.engine.at, s.engine.disk, Continue);
    }
  }

  /** The answer to the question of one review arrives in the next. */
  lemma Answered(moves: seq<Move>, s: Conversation) returns (longer: seq<Move>, t: Conversation)
    requires Run(TWINS, moves) == s && AtHand(s) && s.events != [] && s.events[0] == YES
    requires s.window == Asking("q", "AB", ["AB"], None)
    ensures Run(TWINS, longer) == t
    ensures t == State(Asking("q", "AB", [], Some(Answer("AB", true))), s.events[1..], s.engine.at, s.engine.disk)
  {
    hide Act;
    assert ["AB"][1..] == [];
    longer, t := OneMore(TWINS, moves, s, WindowTakes);
  }

  lemma Marked() returns (moves: seq<Move>, s: Conversation)
    ensures Run(TWINS, moves) == s
    ensures s == State(Showing(DISKS, "p", false, NoSetting), [], STORAGE, None)
  {
    hide Strip, Act, Run, Next, Take, Drain;
    moves, s := ToStorage(TWINS);
    moves, s := Gestured(moves, s, ChooseClick("p"));
  }

  lemma OptionsPiledUp() returns (moves: seq<Move>, s: Conversation)
    ensures Run(TWINS, moves) == s
    ensures s == State(Showing(DISKS, "p", true, NoSetting), [OPTIONS, OPTIONS, OPTIONS], ADVANCED, Some(P))
  {
    hide Strip, Act, Run, Next, Take, Drain;
    moves, s := Marked();
    moves, s := Presses(moves, s, SelectClick);
    assert s == State(Showing(DISKS, "p", true, NoSetting), [OPTIONS], ADVANCED, Some(P));
    moves, s := Presses(moves, s, RescanClick);
    assert s == State(Showing(DISKS, "p", true, NoSetting), [OPTIONS, OPTIONS], ADVANCED, Some(P));
    moves, s := Presses(moves, s, RescanClick);
  }

  lemma BackFromOptions() returns (moves: seq<Move>, s: Conversation)
    ensures Run(TWINS, moves) == s
    ensures s == State(Showing(OPTIONS, "p", false, NoSetting), [OPTIONS, DISKS], STORAGE, Some(P))
  {
    hide Strip, Act, Run, Next, Take, Drain;
    moves, s := OptionsPiledUp();
    moves, s := Takes(moves, s);
    assert s == State(Showing(OPTIONS, "p", false, NoSetting), [OPTIONS, OPTIONS], ADVANCED, Some(P));
    moves, s := Presses(moves, s, BackClick);
    assert s == State(Showing(OPTIONS, "p", true, NoSetting), [OPTIONS, OPTIONS, DISKS], STORAGE, Some(P));
    moves, s := Takes(moves, s);
  }

  lemma ThroughTheNetwork() returns (moves: seq<Move>, s: Conversation)
    ensures Run(TWINS, moves) == s
    ensures s == State(Showing(OPTIONS, "p", true, NoSetting), [DISKS, NET, NET, DISKS], STORAGE, Some(P))
  {
    hide Strip, Act, Run, Next, Take, Drain;
    moves, s := BackFromOptions();
    moves, s := Presses(moves, s, BackClick);
    assert s == State(Showing(OPTIONS, "p", true, NoSetting), [OPTIONS, DISKS, NET], NETWORK, Some(P));
    moves, s := Presses(moves, s, AdvNext(None));
    assert s == State(Showing(OPTIONS, "p", true, AdvancedSetting), [OPTIONS, DISKS, NET, NET], NETWORK, Some(P));
    moves, s := Takes(moves, s);
  }

  lemma OptionsAgain() returns (moves: seq<Move>, s: Conversation)
    ensures Run(TWINS, moves) == s
    ensures s == State(Showing(DISKS, "p", true, AdvancedSetting), [NET, NET, DISKS, OPTIONS], ADVANCED, Some(P))
  {
    hide Strip, Act, Run, Next, Take, Drain;
    moves, s := ThroughTheNetwork();
    moves, s := Presses(moves, s, AdvNext(None));
    assert s == State(Showing(OPTIONS, "p", true, AdvancedSetting), [DISKS, NET, NET, DISKS], STORAGE, Some(P));
    moves, s := Takes(moves, s);
    assert s == State(Showing(DISKS, "p", false, AdvancedSetting), [NET, NET, DISKS], STORAGE, Some(P));
    moves, s := Presses(moves, s, SelectClick);
  }

  lemma PiledUpAgain() returns (moves: seq<Move>, s: Conversation)
    ensures Run(TWINS, moves) == s
    ensures s == State(Showing(NET, "p", false, AdvancedSetting), [NET, DISKS, OPTIONS, OPTIONS, OPTIONS], ADVANCED, Some(P))
  {
    hide Strip, Act, Run, Next, Take, Drain;
    moves, s := OptionsAgain();
    moves, s := Presses(moves, s, RescanClick);
    assert s == State(Showing(DISKS, "p", true, AdvancedSetting), [NET, NET, DISKS, OPTIONS, OPTIONS], ADVANCED, Some(P));
    moves, s := Presses(moves, s, RescanClick);
    assert s == State(Showing(DISKS, "p", true, AdvancedSetting), [NET, NET, DISKS, OPTIONS, OPTIONS, OPTIONS], ADVANCED, Some(P));
    moves, s := Takes(moves, s);
  }

  lemma BackFromTheNetwork() returns (moves: seq<Move>, s: Conversation)
    ensures Run(TWINS, moves) == s
    ensures s == State(Showing(DISKS, "p", false, AdvancedSetting), [OPTIONS, OPTIONS, OPTIONS, DISKS], STORAGE, Some(P))
  {
    hide Strip, Act, Run, Next, Take, Drain;
    moves, s := PiledUpAgain();
    moves, s := Takes(moves, s);
    assert s == State(Showing(NET, "p", false, AdvancedSetting), [DISKS, OPTIONS, OPTIONS, OPTIONS], ADVANCED, Some(P));
    moves, s := Presses(moves, s, BackClick);
    assert s == State(Showing(NET, "p", true, AdvancedSetting), [DISKS, OPTIONS, OPTIONS, OPTIONS, DISKS], STORAGE, Some(P));
    moves, s := Takes(moves, s);
  }

  lemma ReviewOnItsWay() returns (moves: seq<Move>, s: Conversation)
    ensures Run(TWINS, moves) == s
    ensures s == State(Showing(OPTIONS, "p", false, NoSetting), [OPTIONS, DISKS, OPTIONS, REVIEW_P], REVIEW, Some(P))
  {
    hide Strip, Act, Run, Next, Take, Drain;
    moves, s := BackFromTheNetwork();
    moves, s := Presses(moves, s, SelectClick);
    assert s == State(Showing(DISKS, "p", true, AdvancedSetting), [OPTIONS, OPTIONS, OPTIONS, DISKS, OPTIONS], ADVANCED, Some(P));
    moves, s := Takes(moves, s);
    assert s == State(Showing(OPTIONS, "p", true, NoSetting), [OPTIONS, OPTIONS, DISKS, OPTIONS, REVIEW_P], REVIEW, Some(P));
    moves, s := Takes(moves, s);
  }

  lemma BackFromThatReview() returns (moves: seq<Move>, s: Conversation)
    ensures Run(TWINS, moves) == s
    ensures s == State(Showing(OPTIONS, "p", true, NoSetting), [DISKS, OPTIONS, REVIEW_P, OPTIONS, DISKS], STORAGE, Some(P))
  {
    hide Strip, Act, Run, Next, Take, Drain;
    moves, s := ReviewOnItsWay();
    moves, s := Presses(moves, s, BackClick);
    assert s == State(Showing(OPTIONS, "p", true, NoSetting), [OPTIONS, DISKS, OPTIONS, REVIEW_P, OPTIONS], ADVANCED, Some(P));
    moves, s := Takes(moves, s);
    assert s == State(Showing(OPTIONS, "p", false, NoSetting), [DISKS, OPTIONS, REVIEW_P, OPTIONS], ADVANCED, Some(P));
    moves, s := Presses(moves, s, BackClick);
  }

  lemma NextReviewOnItsWay() returns (moves: seq<Move>, s: Conversation)
    ensures Run(TWINS, moves) == s
    ensures s == State(Showing(DISKS, "p", true, AdvancedSetting), [OPTIONS, REVIEW_P, OPTIONS, DISKS, OPTIONS], ADVANCED, Some(P))
  {
    hide Strip, Act, Run, Next, Take, Drain;
    moves, s := BackFromThatReview();
    moves, s := Presses(moves, s, AdvNext(None));
    assert s == State(Showing(OPTIONS, "p", true, AdvancedSetting), [DISKS, OPTIONS, REVIEW_P, OPTIONS, DISKS], STORAGE, Some(P));
    moves, s := Takes(moves, s);
    assert s == State(Showing(DISKS, "p", false, AdvancedSetting), [OPTIONS, REVIEW_P, OPTIONS, DISKS], STORAGE, Some(P));
    moves, s := Presses(moves, s, SelectClick);
  }

  lemma ReviewShown() returns (moves: seq<Move>, s: Conversation)
    ensures Run(TWINS, moves) == s
    ensures s == State(Asking("p", "", [], None), [OPTIONS, DISKS, OPTIONS, REVIEW_P], REVIEW, Some(P))
  {
    hide Strip, Act, Run, Next, Take, Drain;
    moves, s := NextReviewOnItsWay();
    moves, s := Takes(moves, s);
    assert s == State(Showing(OPTIONS, "p", true, NoSetting), [REVIEW_P, OPTIONS, DISKS, OPTIONS, REVIEW_P], REVIEW, Some(P));
    moves, s := Takes(moves, s);
    assert s == State(Showing(REVIEW_P, "p", false, NoSetting), [OPTIONS, DISKS, OPTIONS, REVIEW_P], REVIEW, Some(P));
    moves, s := Gestured(moves, s, OpenConfirm);
  }

  lemma AskedThere() returns (moves: seq<Move>, s: Conversation)
    ensures Run(TWINS, moves) == s
    ensures s == State(Showing(OPTIONS, "p", false, NoSetting), [DISKS, OPTIONS, REVIEW_P, YES, OPTIONS], ADVANCED, Some(P))
  {
    hide Strip, Act, Run, Next, Take, Drain;
    moves, s := ReviewShown();
    moves, s := Presses(moves, s, Type("AB"));
    assert s == State(Asking("p", "AB", ["AB"], None), [OPTIONS, DISKS, OPTIONS, REVIEW_P, YES], REVIEW, Some(P));
    moves, s := Presses(moves, s, BackClick);
    assert s == State(Asking("p", "AB", ["AB"], None).(busy := true), [OPTIONS, DISKS, OPTIONS, REVIEW_P, YES, OPTIONS], ADVANCED, Some(P));
    moves, s := Takes(moves, s);
  }

  lemma BackToTheDisks() returns (moves: seq<Move>, s: Conversation)
    ensures Run(TWINS, moves) == s
    ensures s == State(Showing(DISKS, "p", false, AdvancedSetting), [OPTIONS, REVIEW_P, YES, OPTIONS, DISKS], STORAGE, Some(P))
  {
    hide Strip, Act, Run, Next, Take, Drain;
    moves, s := AskedThere();
    moves, s := Presses(moves, s, BackClick);
    assert s == State(Showing(OPTIONS, "p", true, NoSetting), [DISKS, OPTIONS, REVIEW_P, YES, OPTIONS, DISKS], STORAGE, Some(P));
    moves, s := Presses(moves, s, AdvNext(None));
    assert s == State(Showing(OPTIONS, "p", true, AdvancedSetting), [DISKS, OPTIONS, REVIEW_P, YES, OPTIONS, DISKS], STORAGE, Some(P));
    moves, s := Takes(moves, s);
  }

  lemma OtherDiskSelected() returns (moves: seq<Move>, s: Conversation)
    ensures Run(TWINS, moves) == s
    ensures s == State(Showing(OPTIONS, "q", true, NoSetting), [REVIEW_P, YES, OPTIONS, DISKS, OPTIONS, REVIEW_Q], REVIEW, Some(Q))
  {
    hide Strip, Act, Run, Next, Take, Drain;
    moves, s := BackToTheDisks();
    moves, s := Gestured(moves, s, ChooseClick("q"));
    assert s == State(Showing(DISKS, "q", false, AdvancedSetting), [OPTIONS, REVIEW_P, YES, OPTIONS, DISKS], STORAGE, Some(P));
    moves, s := Presses(moves, s, SelectClick);
    assert s == State(Showing(DISKS, "q", true, AdvancedSetting), [OPTIONS, REVIEW_P, YES, OPTIONS, DISKS, OPTIONS], ADVANCED, Some(Q));
    moves, s := Takes(moves, s);
  }

  lemma AskedInTheNext() returns (moves: seq<Move>, s: Conversation)
    ensures Run(TWINS, moves) == s
    ensures s == State(Asking("q", "AB", ["AB"], None), [YES, OPTIONS, DISKS, OPTIONS, REVIEW_Q, YES], REVIEW, Some(Q))
  {
    hide Strip, Act, Run, Next, Take, Drain;
    moves, s := OtherDiskSelected();
    moves, s := Takes(moves, s);
    assert s == State(Showing(REVIEW_P, "q", false, NoSetting), [YES, OPTIONS, DISKS, OPTIONS, REVIEW_Q], REVIEW, Some(Q));
    moves, s := Gestured(moves, s, OpenConfirm);
    assert s == State(Asking("q", "", [], None), [YES, OPTIONS, DISKS, OPTIONS, REVIEW_Q], REVIEW, Some(Q));
    moves, s := Presses(moves, s, Type("AB"));
  }

  lemma AnsweredInTheNext() returns (moves: seq<Move>, s: Conversation)
    ensures Run(TWINS, moves) == s
    ensures s == State(Asking("q", "AB", [], Some(Answer("AB", true))), [OPTIONS, DISKS, OPTIONS, REVIEW_Q, YES], REVIEW, Some(Q))
  {
    hide Strip, Act, Run, Next, Take, Drain;
    moves, s := AskedInTheNext();
    moves, s := Answered(moves, s);
  }

  /** At the end the window shows the first disk with a right answer and lets it
      be confirmed; the engine is at the review of the second, and that one is
      what the confirmation commits it to. */
  lemma UnseenDiskIsCommitted() returns (moves: seq<Move>)
    ensures var s := Run(TWINS, moves);
      && Commits(TWINS, s) && Shown(s) == P && Overtaken(TWINS, s)
      && var g := Ahead(TWINS, Run(TWINS, moves + [Gestures(Submit)]));
         Committed(g.at) && g.disk == Some(Q)
  {
    hide Strip, FindDisk, ValidHostname, AcceptableNetwork, Run, Next;
    var s;
    moves, s := AnsweredInTheNext();
    SpelledAlike();
    assert s.events[0].StepEvent? && Future(TWINS, s) == s.events;
    assert Ahead(TWINS, s) == EngineAt(REVIEW, Some(Q));
    assert Commits(TWINS, s);
    CommitsTheShownExactly(TWINS, moves);
    var longer, t := OneMore(TWINS, moves, s, Gestures(Submit));
  }

  lemma SpelledAlike()
    ensures TWINS.Accepts(P, "AB") && TWINS.Accepts(Q, "AB")
  {
    assert StripLeft("AB") == "AB" && StripRight("AB") == "AB";
  }
}
