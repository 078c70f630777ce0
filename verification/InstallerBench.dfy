/** Runs written out move by move, and the way they all begin. */
module InstallerBench {
  import opened Text
  import opened InstallerContract
  import opened InstallerEngine
  import opened InstallerClient
  import opened InstallerConversation

  /** One more move of a run. */
  lemma OneMore(m: Machine, moves: seq<Move>, s: Conversation, move: Move) returns (longer: seq<Move>, s': Conversation)
    requires Run(m, moves) == s
    ensures longer == moves + [move] && s' == Next(m, s, move) && Run(m, longer) == s'
  {
    longer, s' := moves + [move], Next(m, s, move);
    assert longer[..|longer| - 1] == moves;
  }

  function EngineAt(at: Step, disk: Option<Disk>): EngineState {
    EngineState(at, disk, DEFAULTS, None, None, None)
  }

  lemma ToKeyboard(m: Machine) returns (moves: seq<Move>, s: Conversation)
    requires m.scenario == PlainInstall
    ensures Run(m, moves) == s
    ensures s == Conversation(FRESH.(engine := Some(Keyboard("pt")), page := LanguagePage), [],
                              EngineAt(KEYBOARD, None), [], true)
  {
    hide Strip, FindDisk, ValidHostname, AcceptableNetwork;
    moves, s := [], Opening(m);
    moves, s := OneMore(m, moves, s, Connects);
    moves, s := OneMore(m, moves, s, WindowTakes);
    moves, s := OneMore(m, moves, s, WindowTakes);
    assert s == Conversation(FRESH.(engine := Some(Welcome)), [], EngineAt(WELCOME, None), [], true);
    moves, s := FromWelcome(m, moves, s);
    moves, s := OneMore(m, moves, s, Gestures(ContinueClick));
    moves, s := OneMore(m, moves, s, EngineActs);
    moves, s := OneMore(m, moves, s, WindowTakes);
  }

  lemma FromWelcome(m: Machine, earlier: seq<Move>, s0: Conversation) returns (moves: seq<Move>, s: Conversation)
    requires m.scenario == PlainInstall
    requires Run(m, earlier) == s0
    requires s0 == Conversation(FRESH.(engine := Some(Welcome)), [], EngineAt(WELCOME, None), [], true)
    ensures Run(m, moves) == s
    ensures s == Conversation(FRESH.(engine := Some(Compatibility(false)), page := LanguagePage), [],
                              EngineAt(COMPATIBILITY, None), [], true)
  {
    hide Strip, FindDisk, ValidHostname, AcceptableNetwork;
    moves, s := OneMore(m, earlier, s0, Gestures(Start));
    moves, s := OneMore(m, moves, s, Gestures(BeginClick));
    moves, s := OneMore(m, moves, s, EngineActs);
    moves, s := OneMore(m, moves, s, WindowTakes);
  }

  lemma ToNetwork(m: Machine) returns (moves: seq<Move>, s: Conversation)
    requires m.scenario == PlainInstall
    ensures Run(m, moves) == s
    ensures s == Conversation(FRESH.(engine := Some(NetworkStep(Automatic, false)), page := LanguagePage), [],
                              EngineAt(NETWORK, None), [], true)
  {
    hide Strip, FindDisk, ValidHostname, AcceptableNetwork;
    moves, s := ToKeyboard(m);
    moves, s := OneMore(m, moves, s, Gestures(ContinueClick));
    moves, s := OneMore(m, moves, s, EngineActs);
    moves, s := OneMore(m, moves, s, WindowTakes);
  }

  lemma ToStorage(m: Machine) returns (moves: seq<Move>, s: Conversation)
    requires m.scenario == PlainInstall
    ensures Run(m, moves) == s
    ensures s == Conversation(FRESH.(engine := Some(Storage(m.disks, false)), page := LanguagePage), [],
                              EngineAt(STORAGE, None), [], true)
  {
    hide Strip, FindDisk, ValidHostname, Run;
    moves, s := ToNetwork(m);
    moves, s := OneMore(m, moves, s, Gestures(NetNext(Automatic)));
    moves, s := OneMore(m, moves, s, EngineActs);
    moves, s := OneMore(m, moves, s, WindowTakes);
    assert s == Conversation(FRESH.(engine := Some(NetworkStep(Automatic, false)), page := LanguagePage, busy := true),
                             [Continue], EngineAt(NETWORK, None), [], true);
    moves, s := OneMore(m, moves, s, EngineActs);
    moves, s := OneMore(m, moves, s, WindowTakes);
  }
}
