/** How an installation goes and how it ends, whoever sends the actions. */
module InstallerOutcome {
  import opened Text
  import opened InstallerContract
  import opened InstallerEngine

  /** Everything the engine said, from boot on. */
  function Said(m: Machine, inputs: seq<Input>): seq<Event> {
    if inputs == [] then Boot(m).1
    else
      var earlier := inputs[..|inputs| - 1];
      Said(m, earlier) + React(m, After(m, earlier), inputs[|inputs| - 1]).1
  }

  /** All that is said of an installation. */
  function Told(m: Machine): seq<Event> {
    if m.scenario == FailingWrite then
      [StepEvent(Installing),
       Detail("[OK] media_check"), StageDone("media_check", true),
       Detail("[DISK_WRITE_FAILED] install"), StageDone("install", false),
       StepEvent(Failed)]
    else
      [StepEvent(Installing),
       Detail("[OK] media_check"), StageDone("media_check", true),
       Detail("[OK] install"), StageDone("install", true),
       Detail("[OK] verify"), StageDone("verify", true),
       Detail("[OK] first_boot"), StageDone("first_boot", true),
       StepEvent(Installed)]
  }

  /** How far the installation is. */
  function SoFar(m: Machine, g: EngineState): nat {
    match g.at
    case INSTALLING => if g.stage.Some? then 1 + 2 * g.stage.value else 1
    case INSTALLED => |Told(m)|
    case FAILED => |Told(m)|
    case _ => 0
  }

  /** Nothing of an installation. */
  predicate Quiet(events: seq<Event>) {
    forall e <- events :: !e.StageDone? && !e.Detail?
      && (e.StepEvent? ==> !Writing(e.state.Step()))
  }

  /** What holds of the engine at every moment. */
  predicate InPlan(m: Machine, g: EngineState) {
    && (g.stage.Some? <==> g.at == INSTALLING)
    && (g.stage.Some? ==> 1 + 2 * g.stage.value < |Told(m)| - 1)
    && (NeedsDisk(g.at) ==> g.disk.Some?)
    && (g.at == INSTALLED ==> m.scenario != FailingWrite)
    && (g.at == FAILED ==> m.scenario == FailingWrite)
    && g.wrote == (if g.at == INSTALLED && g.disk.Some? then Some(g.disk.value.byPath) else None)
  }

  lemma ActInPlan(m: Machine, g: EngineState, a: Action)
    requires InPlan(m, g)
    ensures InPlan(m, Act(m, g, a).0)
  {
    hide AcceptableNetwork, ValidHostname, Strip, FindDisk;
  }

  lemma ActIsTold(m: Machine, g: EngineState, a: Action)
    requires InPlan(m, g)
    ensures var (g', said) := Act(m, g, a);
            if Writing(g.at) then g' == g && said == []
            else if Writing(g'.at) then g'.at == INSTALLING && g'.stage == Some(0) && said == [StepEvent(Installing)]
            else Quiet(said)
  {
    hide AcceptableNetwork, ValidHostname, Strip, FindDisk, Told, SoFar;
  }

  lemma TickInPlan(m: Machine, g: EngineState)
    requires InPlan(m, g)
    ensures var (g', said) := Tick(m, g);
      && InPlan(m, g')
      && (g.at != INSTALLING ==> g' == g && said == [])
      && (g.at == INSTALLING ==> Writing(g'.at) && said == ToldOf(m, g.stage.value)
                                 && SoFar(m, g') == SoFar(m, g) + |said|)
  {
    hide StageLine;
  }

  /** What is said when a stage ends. */
  function ToldOf(m: Machine, i: nat): seq<Event>
    requires i < |PLAN|
  {
    var ok := m.scenario != FailingWrite || i != 1;
    [Detail(StageLine(PLAN[i], ok)), StageDone(PLAN[i], ok)]
    + if !ok then [StepEvent(Failed)] else if i + 1 == |PLAN| then [StepEvent(Installed)] else []
  }

  /** That is the script, part by part. */
  lemma ToldInParts(m: Machine, i: nat)
    requires 1 + 2 * i < |Told(m)| - 1
    ensures i < |PLAN| && 1 + 2 * i + |ToldOf(m, i)| <= |Told(m)|
    ensures Told(m)[1 + 2 * i..1 + 2 * i + |ToldOf(m, i)|] == ToldOf(m, i)
  {
    assert StageLine("media_check", true) == "[OK] media_check" && StageLine("install", true) == "[OK] install";
    assert StageLine("verify", true) == "[OK] verify" && StageLine("first_boot", true) == "[OK] first_boot";
    assert StageLine("install", false) == "[DISK_WRITE_FAILED] install";
    assert i == 0 || i == 1 || i == 2 || i == 3;
  }

  /** What has been said of the installation, and nothing of it before. */
  ghost predicate ToldSoFar(m: Machine, g: EngineState, said: seq<Event>, before: seq<Event>) {
    Quiet(before) && SoFar(m, g) <= |Told(m)| && said == before + Told(m)[..SoFar(m, g)]
  }

  lemma ToldByAction(m: Machine, g: EngineState, said: seq<Event>, before: seq<Event>, a: Action) returns (after: seq<Event>)
    requires InPlan(m, g) && ToldSoFar(m, g, said, before)
    ensures var r := Act(m, g, a); InPlan(m, r.0) && ToldSoFar(m, r.0, said + r.1, after)
  {
    hide Act, Told, Quiet, InPlan;
    ActInPlan(m, g, a);
    ActIsTold(m, g, a);
    ToldFirst(m);
    var r := Act(m, g, a);
    after := before;
    if Writing(g.at) {
      assert said + [] == said;
    } else {
      assert Told(m)[..0] == [] && before + [] == before;
      if !Writing(r.0.at) {
        after := before + r.1;
        QuietTogether(before, r.1);
        assert after + [] == after;
      }
    }
  }

  lemma ToldByTimer(m: Machine, g: EngineState, said: seq<Event>, before: seq<Event>)
    requires InPlan(m, g) && ToldSoFar(m, g, said, before)
    ensures var r := Tick(m, g); InPlan(m, r.0) && ToldSoFar(m, r.0, said + r.1, before)
  {
    hide Tick, Told, Quiet, ToldOf;
    TickInPlan(m, g);
    var r := Tick(m, g);
    if g.at == INSTALLING {
      ToldInParts(m, g.stage.value);
      assert Told(m)[..SoFar(m, r.0)] == Told(m)[..SoFar(m, g)] + r.1;
    } else {
      assert said + [] == said;
    }
  }

  lemma QuietTogether(a: seq<Event>, b: seq<Event>)
    requires Quiet(a) && Quiet(b)
    ensures Quiet(a + b)
  {
  }

  /** In every run: an installation is told from its first step to its end by
      exactly its script, as far as it has gone; it ends as installed unless the
      write fails, and then as failed; and what is written is the disk in force. */
  lemma {:induction false} InstallationIsTold(m: Machine, inputs: seq<Input>) returns (before: seq<Event>)
    ensures ToldSoFar(m, After(m, inputs), Said(m, inputs), before)
    ensures var g := After(m, inputs);
      && InPlan(m, g)
      && (g.at == INSTALLED <==> g.wrote.Some?)
      && (g.at == INSTALLED ==> m.scenario != FailingWrite && g.disk.Some? && g.wrote == Some(g.disk.value.byPath))
      && (g.at == FAILED ==> m.scenario == FailingWrite)
  {
    if inputs == [] {
      BootInPlan(m);
      before := Said(m, []);
      assert Told(m)[..0] == [] && before + [] == before;
    } else {
      hide Act, Tick, Told, ToldSoFar;
      var n := |inputs| - 1;
      var earlier := inputs[..n];
      before := InstallationIsTold(m, earlier);
      match inputs[n]
      case Received(a) => before := ToldByAction(m, After(m, earlier), Said(m, earlier), before, a);
      case TimerFired => ToldByTimer(m, After(m, earlier), Said(m, earlier), before);
    }
  }

  lemma BootInPlan(m: Machine)
    ensures InPlan(m, Boot(m).0) && Quiet(Boot(m).1) && SoFar(m, Boot(m).0) == 0
  {
  }

  lemma ToldFirst(m: Machine)
    ensures Told(m) != [] && Told(m)[..1] == [StepEvent(Installing)]
  {
  }

  /** A confirmed installation ends, once its stages have had their time, and is
      told to its end. */
  lemma {:induction false} InstallationEnds(m: Machine, inputs: seq<Input>, left: nat)
    requires After(m, inputs).at == INSTALLING
    requires left == (|Told(m)| - 1 - SoFar(m, After(m, inputs))) / 2
    ensures var g := After(m, inputs + seq(left, _ => TimerFired));
            if m.scenario == FailingWrite then g.at == FAILED && g.wrote == None
            else g.at == INSTALLED && g.disk == After(m, inputs).disk && g.disk.Some? && g.wrote == Some(g.disk.value.byPath)
    decreases left
  {
    hide Act, Tick;
    var g := After(m, inputs);
    var _ := InstallationIsTold(m, inputs);
    var longer := inputs + [TimerFired];
    assert longer[..|inputs|] == inputs && After(m, longer) == Tick(m, g).0;
    TickInPlan(m, g);
    TickKeepsDisk(m, g);
    if left == 1 {
      assert seq(left, _ => TimerFired) == [TimerFired];
      var _ := InstallationIsTold(m, longer);
    } else {
      assert inputs + seq(left, _ => TimerFired) == longer + seq(left - 1, _ => TimerFired);
      InstallationEnds(m, longer, left - 1);
    }
  }

  lemma TickKeepsDisk(m: Machine, g: EngineState)
    ensures Tick(m, g).0.disk == g.disk
  {
  }
}
