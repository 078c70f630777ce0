/** What gets erased, and what was on the screen when it was confirmed. */
module InstallerErasure {
  import opened Text
  import opened InstallerContract
  import opened InstallerEngine
  import opened InstallerClient
  import opened InstallerConversation
  import opened InstallerTracing

  predicate Sound(g: EngineState) {
    && (g.stage.Some? ==> g.at == INSTALLING)
    && (NeedsDisk(g.at) ==> g.disk.Some?)
  }

  lemma {:induction false} DrainIsSound(m: Machine, g: EngineState, actions: seq<Action>)
    requires Sound(g)
    ensures Sound(Drain(m, g, actions).0)
    decreases |actions|
  {
    hide Act;
    if actions != [] {
      ActIsCareful(m, g, actions[0]);
      DrainIsSound(m, Act(m, g, actions[0]).0, actions[1..]);
    }
  }

  /** Without a link nothing is on its way to the engine. */
  predicate Tidy(s: Conversation) {
    Sound(s.engine) && (!s.connected ==> s.actions == [])
  }

  /** What the window sent, if anything, with this move. */
  function Sent(s: Conversation, move: Move): seq<Action> {
    if !Possible(s, move) || !s.connected then []
    else match move
      case Gestures(g) => Do(s.window, g).1
      case WindowTakes => Take(s.window, s.events[0]).1
      case _ => []
  }

  /** Where the engine will be changes only by what is sent, by the timer of an
      installation under way, and by a new start. */
  lemma AheadMoves(m: Machine, s: Conversation, move: Move)
    requires Tidy(s)
    ensures var sent := Sent(s, move);
            var ahead := Ahead(m, Next(m, s, move));
            && Tidy(Next(m, s, move))
            && |sent| <= 1
            && (|sent| == 1 ==> ahead == Act(m, Ahead(m, s), sent[0]).0)
            && (sent == [] ==>
                  || ahead == Ahead(m, s)
                  || (Writing(Ahead(m, s).at) && Writing(ahead.at) && ahead.disk == Ahead(m, s).disk)
                  || !Committed(ahead.at))
  {
    hide Act, Tick, Strip, Do, Take, Right;
    match move
    case Gestures(g) =>
      if Possible(s, move) && s.connected {
        GestureFacts(s.window, g);
        var sent := Do(s.window, g).1;
        if sent == [] { assert s.actions + [] == s.actions; }
        else { DrainOneMore(m, s.engine, s.actions, sent[0]); assert sent == [sent[0]]; }
      }
    case WindowTakes =>
      if Possible(s, move) && s.connected {
        TakeSendsContinue(s.window, s.events[0]);
        var sent := Take(s.window, s.events[0]).1;
        if sent == [] { assert s.actions + [] == s.actions; }
        else { DrainOneMore(m, s.engine, s.actions, sent[0]); assert sent == [sent[0]]; }
      }
    case EngineActs => if Possible(s, move) { ActIsCareful(m, s.engine, s.actions[0]); }
    case EngineTicks =>
      if Possible(s, move) {
        TickIsCareful(m, s.engine);
        TickOnlyWhileWriting(m, s.engine);
        if s.engine.stage.Some? {
          DrainedDeaf(m, s.engine, s.actions);
          DrainedDeaf(m, Tick(m, s.engine).0, s.actions);
        }
      }
    case _ =>
  }

  lemma TakeSendsContinue(w: ClientState, e: Event)
    ensures Take(w, e).1 == [] || Take(w, e).1 == [Continue]
  {
    hide Shows;
  }

  lemma TickOnlyWhileWriting(m: Machine, g: EngineState)
    requires Sound(g)
    ensures g.stage.None? ==> Tick(m, g).0 == g
    ensures g.stage.Some? ==> Writing(Tick(m, g).0.at)
  {
  }

  lemma {:induction false} RunIsTidy(m: Machine, moves: seq<Move>)
    ensures Tidy(Run(m, moves))
  {
    hide Next;
    if moves != [] {
      RunIsTidy(m, moves[..|moves| - 1]);
      AheadMoves(m, Run(m, moves[..|moves| - 1]), moves[|moves| - 1]);
    }
  }

  /** The person confirmed `d`, shown in the window's review, with its token. */
  ghost predicate SubmittedAt(m: Machine, moves: seq<Move>, i: nat, d: Disk)
    requires i < |moves|
  {
    var w := Run(m, moves[..i]).window;
    && moves[i] == Gestures(Submit) && Enabled(w, Submit)
    && w.engine.value.disk == d && m.Accepts(d, w.typed)
  }

  ghost predicate Submitted(m: Machine, moves: seq<Move>, d: Disk) {
    exists i: nat :: i < |moves| && SubmittedAt(m, moves, i, d)
  }

  // ── What a confirmation commits the engine to

  /** The window's confirmation reaches the engine at a review and is right for
      the disk in force there: from then on the engine is bound to write it. */
  predicate Commits(m: Machine, s: Conversation) {
    s.connected && Enabled(s.window, Submit) && Ahead(m, s).at == REVIEW && Right(m, Ahead(m, s), s.window.typed)
  }

  function Shown(s: Conversation): Disk
    requires Enabled(s.window, Submit)
  {
    s.window.engine.value.disk
  }

  /** In every reachable state: what a confirmation commits the engine to is the
      disk on the screen if and only if the engine will be at a review of that
      disk, which is if and only if the last step still coming to the window, if
      any, is a review of that disk. Not being overtaken is enough. */
  lemma CommitsTheShownExactly(m: Machine, moves: seq<Move>)
    requires Commits(m, Run(m, moves))
    ensures var s := Run(m, moves);
            var last := LastStep(s.window.engine, Future(m, s));
            var g := Ahead(m, Next(m, s, Gestures(Submit)));
      && Committed(g.at) && g.disk == Ahead(m, s).disk
      && last.Some? && last.value.Review?
      && (g.disk == Some(Shown(s)) <==> Ahead(m, s).disk == Some(Shown(s)))
      && (g.disk == Some(Shown(s)) <==> last.value.disk == Shown(s))
      && (!Overtaken(m, s) ==> g.disk == Some(Shown(s)))
  {
    hide Act, Strip, Right, Drain, Run, Follows, LastStep, Next, Do;
    var s := Run(m, moves);
    EveryRunIsTraced(m, moves);
    FollowsToTheLast(s.window.engine, Future(m, s), Ahead(m, s));
    RunIsTidy(m, moves);
    AheadMoves(m, s, Gestures(Submit));
    SubmitSends(s);
    ConfirmCommits(m, Ahead(m, s), s.window.typed);
  }

  lemma SubmitSends(s: Conversation)
    requires s.connected && Enabled(s.window, Submit)
    ensures Sent(s, Gestures(Submit)) == [Confirm(s.window.typed)]
  {
  }

  lemma ConfirmCommits(m: Machine, g: EngineState, typed: string)
    requires g.at == REVIEW && Right(m, g, typed)
    ensures var g' := Act(m, g, Confirm(typed)).0; Committed(g'.at) && g'.disk == g.disk
  {
    hide Strip;
  }

  ghost predicate CommitsAt(m: Machine, moves: seq<Move>, i: nat, d: Disk)
    requires i < |moves|
  {
    moves[i] == Gestures(Submit) && Commits(m, Run(m, moves[..i])) && Ahead(m, Run(m, moves[..i])).disk == Some(d)
  }

  ghost predicate CommittedBy(m: Machine, moves: seq<Move>, d: Disk) {
    exists i: nat :: i < |moves| && CommitsAt(m, moves, i, d)
  }

  lemma StillCommitted(m: Machine, moves: seq<Move>, d: Disk)
    requires moves != [] && CommittedBy(m, moves[..|moves| - 1], d)
    ensures CommittedBy(m, moves, d)
  {
    hide Run, Commits;
    var earlier := moves[..|moves| - 1];
    var i: nat :| i < |earlier| && CommitsAt(m, earlier, i, d);
    assert earlier[..i] == moves[..i];
    assert CommitsAt(m, moves, i, d);
  }

  /** Only a confirmation of the window commits the engine. */
  lemma OnlySubmitCommits(m: Machine, s: Conversation, move: Move)
    requires Tidy(s) && !Committed(Ahead(m, s).at) && Committed(Ahead(m, Next(m, s, move)).at)
    ensures move == Gestures(Submit) && Commits(m, s) && Ahead(m, Next(m, s, move)).disk == Ahead(m, s).disk
  {
    hide Act, Strip, Right, Drain, Do, Take, Next;
    var sent := Sent(s, move);
    AheadMoves(m, s, move);
    DrainIsSound(m, s.engine, s.actions);
    assert |sent| == 1 && sent == [sent[0]];
    ActIsCareful(m, Ahead(m, s), sent[0]);
    match move
    case Gestures(g) => GestureFacts(s.window, g);
    case WindowTakes => TakeSendsContinue(s.window, s.events[0]);
    case _ =>
  }

  /** In every run: the disk the engine is bound to write, now or once what was
      sent reaches it, is the one some confirmation of the window committed. */
  lemma {:induction false} WrittenWasCommitted(m: Machine, moves: seq<Move>)
    requires Committed(Ahead(m, Run(m, moves)).at)
    ensures var d := Ahead(m, Run(m, moves)).disk; d.Some? && CommittedBy(m, moves, d.value)
  {
    hide Next, Act, Tick, Strip, Right, Do, Take, Drain, Enabled, Commits;
    if moves == [] {
      NothingCommittedAtFirst(m);
    } else {
      var n := |moves| - 1;
      var s, s' := Run(m, moves[..n]), Run(m, moves);
      RunIsTidy(m, moves[..n]);
      RunIsTidy(m, moves);
      AheadMoves(m, s, moves[n]);
      DrainIsSound(m, s.engine, s.actions);
      DrainIsSound(m, s'.engine, s'.actions);
      if Committed(Ahead(m, s).at) {
        if Sent(s, moves[n]) != [] { ActIsCareful(m, Ahead(m, s), Sent(s, moves[n])[0]); }
        WrittenWasCommitted(m, moves[..n]);
        StillCommitted(m, moves, Ahead(m, s').disk.value);
      } else {
        OnlySubmitCommits(m, s, moves[n]);
        assert CommitsAt(m, moves, n, Ahead(m, s').disk.value);
      }
    }
  }

  lemma NothingCommittedAtFirst(m: Machine)
    ensures !Committed(Ahead(m, Run(m, [])).at)
  {
  }

  /** No confirmation leaves the window while it is overtaken. Questions may. */
  predicate ConfirmsInTime(m: Machine, moves: seq<Move>) {
    forall i :: 0 <= i < |moves| && moves[i] == Gestures(Submit) && Possible(Run(m, moves[..i]), moves[i]) ==>
      !Overtaken(m, Run(m, moves[..i]))
  }

  /** If no confirmation is sent while overtaken, the disk the engine is bound to
      write is one the window's own review showed when the person confirmed it,
      with its token. */
  lemma OnlyReviewedDiskIsWritten(m: Machine, moves: seq<Move>)
    requires ConfirmsInTime(m, moves)
    requires Committed(Ahead(m, Run(m, moves)).at)
    ensures var d := Ahead(m, Run(m, moves)).disk; d.Some? && Submitted(m, moves, d.value)
  {
    hide Act, Strip, Drain, Run, Next, Do, LastStep;
    WrittenWasCommitted(m, moves);
    var d := Ahead(m, Run(m, moves)).disk.value;
    var i: nat :| i < |moves| && CommitsAt(m, moves, i, d);
    CommitsTheShownExactly(m, moves[..i]);
    assert Possible(Run(m, moves[..i]), moves[i]);
    assert SubmittedAt(m, moves, i, d);
  }
}
