/** A run of the window and the engine in which an answer reaches the wrong
    question: the condition of the alignment results is needed. */
module InstallerOvertaken {
  import opened Text
  import opened InstallerContract
  import opened InstallerEngine
  import opened InstallerClient
  import opened InstallerConversation
  import opened InstallerBench

  const ONE_DISK := Disk("p", ELIGIBLE, "AB")
  const BENCH := Machine(PlainInstall, [ONE_DISK], [], [], (s: string) => s)
  const CHOSEN := Some(ONE_DISK)

  lemma DiskMarked() returns (moves: seq<Move>, s: Conversation)
    ensures Run(BENCH, moves) == s
    ensures s == Conversation(FRESH.(engine := Some(Storage(BENCH.disks, false)), page := LanguagePage, chosen := Some("p")),
                              [], EngineAt(STORAGE, None), [], true)
  {
    hide Strip, FindDisk, ValidHostname, AcceptableNetwork, Act;
    moves, s := ToStorage(BENCH);
    assert ONE_DISK in [ONE_DISK];
    moves, s := OneMore(BENCH, moves, s, Gestures(ChooseClick("p")));
  }

  /** Up to the advanced options, one exchange at a time. */
  lemma ToAdvanced() returns (moves: seq<Move>, s: Conversation)
    ensures Run(BENCH, moves) == s
    ensures s == Conversation(AtAdvanced(false, NoSetting), [], EngineAt(ADVANCED, CHOSEN), [], true)
  {
    hide Strip, ValidHostname, AcceptableNetwork;
    moves, s := DiskMarked();
    moves, s := OneMore(BENCH, moves, s, Gestures(SelectClick));
    moves, s := OneMore(BENCH, moves, s, EngineActs);
    assert FindDisk([ONE_DISK], "p") == CHOSEN;
    moves, s := OneMore(BENCH, moves, s, WindowTakes);
  }

  /** The window at the advanced options; `busy` and `pending` vary. */
  function AtAdvanced(busy: bool, pending: Pending): ClientState {
    FRESH.(engine := Some(Advanced(None, false)), page := LanguagePage, chosen := Some("p"), busy := busy, pending := pending)
  }

  function AtReview(dialog: bool, typed: string, checks: seq<string>, checked: Option<Answer>): ClientState {
    FRESH.(engine := Some(Review(ONE_DISK, DEFAULTS)), page := LanguagePage, chosen := Some("p"),
           dialog := dialog, typed := typed, checks := checks, checked := checked)
  }

  /** Enter pressed four times and Back once, before the first review arrives. */
  lemma ManySent() returns (moves: seq<Move>, s: Conversation)
    ensures Run(BENCH, moves) == s
    ensures s == Conversation(AtAdvanced(true, NoSetting), [Continue, Back, SetHostname(None), Continue],
                              EngineAt(ADVANCED, CHOSEN), [], true)
  {
    hide Strip, FindDisk, AcceptableNetwork;
    var name := Gestures(AdvNext(None));
    var told := StepEvent(Advanced(None, false));
    moves, s := ToAdvanced();
    moves, s := OneMore(BENCH, moves, s, name);
    moves, s := OneMore(BENCH, moves, s, name);
    moves, s := OneMore(BENCH, moves, s, name);
    assert s == Conversation(AtAdvanced(true, AdvancedSetting), [SetHostname(None), SetHostname(None), SetHostname(None)],
                             EngineAt(ADVANCED, CHOSEN), [], true);
    moves, s := OneMore(BENCH, moves, s, EngineActs);
    moves, s := OneMore(BENCH, moves, s, EngineActs);
    moves, s := OneMore(BENCH, moves, s, EngineActs);
    assert s == Conversation(AtAdvanced(true, AdvancedSetting), [], EngineAt(ADVANCED, CHOSEN), [told, told, told], true);
    moves, s := OneMore(BENCH, moves, s, WindowTakes);
    moves, s := OneMore(BENCH, moves, s, WindowTakes);
    assert s == Conversation(AtAdvanced(false, NoSetting), [Continue], EngineAt(ADVANCED, CHOSEN), [told], true);
    moves, s := OneMore(BENCH, moves, s, Gestures(BackClick));
    moves, s := OneMore(BENCH, moves, s, name);
    moves, s := OneMore(BENCH, moves, s, WindowTakes);
  }

  /** The window asks about "AB" in one review while a second is on its way. */
  lemma AskedInOneReview() returns (moves: seq<Move>, s: Conversation)
    ensures Run(BENCH, moves) == s
    ensures s == Conversation(AtReview(true, "AB", ["AB"], None),
                              [Back, SetHostname(None), Continue, CheckConfirmation("AB")],
                              EngineAt(REVIEW, CHOSEN), [], true)
  {
    hide Strip, FindDisk, ValidHostname, AcceptableNetwork;
    moves, s := ManySent();
    moves, s := OneMore(BENCH, moves, s, EngineActs);
    moves, s := OneMore(BENCH, moves, s, WindowTakes);
    assert s == Conversation(AtReview(false, "", [], None), [Back, SetHostname(None), Continue],
                             EngineAt(REVIEW, CHOSEN), [], true);
    moves, s := OneMore(BENCH, moves, s, Gestures(OpenConfirm));
    moves, s := OneMore(BENCH, moves, s, Gestures(Type("AB")));
  }

  /** The engine answers in the second review. */
  lemma AnsweredInTheNext() returns (moves: seq<Move>, s: Conversation)
    ensures Run(BENCH, moves) == s
    ensures s == Conversation(AtReview(true, "AB", ["AB"], None), [], EngineAt(REVIEW, CHOSEN),
                              [StepEvent(Advanced(None, false)), StepEvent(Advanced(None, false)),
                               StepEvent(Review(ONE_DISK, DEFAULTS)), ConfirmationChecked(true)], true)
  {
    hide Strip, FindDisk, AcceptableNetwork;
    var review := StepEvent(Review(ONE_DISK, DEFAULTS));
    var told := StepEvent(Advanced(None, false));
    moves, s := AskedInOneReview();
    moves, s := OneMore(BENCH, moves, s, EngineActs);
    moves, s := OneMore(BENCH, moves, s, EngineActs);
    moves, s := OneMore(BENCH, moves, s, EngineActs);
    assert s == Conversation(AtReview(true, "AB", ["AB"], None), [CheckConfirmation("AB")],
                             EngineAt(REVIEW, CHOSEN), [told, told, review], true);
    Spelled();
    moves, s := OneMore(BENCH, moves, s, EngineActs);
  }

  lemma ShownTheNext() returns (moves: seq<Move>, s: Conversation)
    ensures Run(BENCH, moves) == s
    ensures s == Conversation(AtReview(false, "", [], None), [], EngineAt(REVIEW, CHOSEN), [ConfirmationChecked(true)], true)
  {
    hide Strip, FindDisk, ValidHostname, AcceptableNetwork, Act;
    moves, s := AnsweredInTheNext();
    moves, s := OneMore(BENCH, moves, s, WindowTakes);
    moves, s := OneMore(BENCH, moves, s, WindowTakes);
    moves, s := OneMore(BENCH, moves, s, WindowTakes);
  }

  /** In the second review the window asks about "X"; the answer to "AB" is next. */
  lemma AskedInTheNext() returns (moves: seq<Move>, s: Conversation)
    ensures Run(BENCH, moves) == s
    ensures s == Conversation(AtReview(true, "X", ["X"], None), [CheckConfirmation("X")],
                              EngineAt(REVIEW, CHOSEN), [ConfirmationChecked(true)], true)
  {
    hide Strip, FindDisk, ValidHostname, AcceptableNetwork, Act;
    moves, s := ShownTheNext();
    moves, s := OneMore(BENCH, moves, s, Gestures(OpenConfirm));
    moves, s := OneMore(BENCH, moves, s, Gestures(Type("X")));
  }

  lemma Spelled()
    ensures BENCH.Accepts(ONE_DISK, "AB") && !BENCH.Accepts(ONE_DISK, "X")
  {
    assert StripLeft("AB") == "AB" && StripRight("AB") == "AB";
    assert StripLeft("X") == "X" && StripRight("X") == "X";
    assert "X"[0] != "AB"[0];
  }

  lemma WrongAnswerShown() returns (moves: seq<Move>, s: Conversation)
    ensures Run(BENCH, moves) == s
    ensures s == Conversation(AtReview(true, "X", [], Some(Answer("X", true))), [CheckConfirmation("X")],
                              EngineAt(REVIEW, CHOSEN), [], true)
  {
    hide Strip, FindDisk, ValidHostname, AcceptableNetwork, Act;
    moves, s := AskedInTheNext();
    moves, s := OneMore(BENCH, moves, s, WindowTakes);
  }

  /** There is a run in which the window shows a wrong text as right, lets it be
      confirmed, and the engine refuses the confirmation. */
  lemma AnswersCanReachTheWrongQuestion() returns (moves: seq<Move>)
    ensures var s := Run(BENCH, moves);
            && s.window.checked == Some(Answer("X", true))
            && s.window.engine == Some(Review(ONE_DISK, DEFAULTS))
            && Enabled(s.window, Submit)
            && Act(BENCH, Ahead(BENCH, s), Confirm(s.window.typed)).1 == [ConfirmationChecked(false)]
    ensures !BENCH.Accepts(ONE_DISK, "X")
    ensures !Disciplined(BENCH, moves)
  {
    hide Strip, FindDisk, ValidHostname, AcceptableNetwork, Run, Next, Take;
    var s;
    moves, s := WrongAnswerShown();
    Spelled();
    assert Ahead(BENCH, s) == EngineAt(REVIEW, CHOSEN);
    assert !AnswerIsTrue(BENCH, s.window);
    assert !Aligned(BENCH, s) by { hide Plays, Drain; }
    if Disciplined(BENCH, moves) { DisciplinedRunIsAligned(BENCH, moves); }
  }
}
