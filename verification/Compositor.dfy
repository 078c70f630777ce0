/** The compositor as its callbacks run it: the seat and the frames it draws. */
module Compositor {
  import opened Text
  import opened Seat

  /** How a frame ends: it could not be drawn, it had nothing new, it was queued,
      or queueing failed. */
  datatype End = NoFrame | Empty | Queued | NotQueued

  /** How one attempt to draw ends: the windows could not be gathered, or a frame
      was made, with the pointer or, when its element could not be, without. */
  datatype Gpu = NoElements | Frame(pointer: bool, end: End)

  /** The state of drawing. `tried` and `shown` are the last request that an
      attempt, and an attempt that succeeded, has seen; `picture` is what the
      latter drew. */
  datatype Frames = Frames(
    dirty: bool,
    pending: bool,
    queued: nat,
    confirmed: nat,
    tried: int,
    failed: bool,
    shown: int,
    picture: Option<Scene>)

  const FIRST := Frames(true, false, 0, 0, -1, false, -1, None)

  datatype Machine = Machine(seat: Seat, frames: Frames)

  /** Everything that was to be seen was drawn. */
  predicate Succeeds(gpu: Gpu) { gpu.Frame? && gpu.pointer && (gpu.end.Empty? || gpu.end.Queued?) }

  /** A frame is on its way to the screen, complete or not. */
  predicate Queues(gpu: Gpu) { gpu.Frame? && gpu.end.Queued? }

  function Drawn(m: Machine, gpu: Gpu): Machine {
    var f := m.frames;
    if f.pending || !f.dirty || gpu.NoElements? then m
    else
      var tried := f.(dirty := false, tried := m.seat.redraws, failed := !Succeeds(gpu));
      var seen := if Succeeds(gpu) then tried.(shown := m.seat.redraws, picture := Some(SceneOf(m.seat))) else tried;
      Machine(Next(m.seat, Refresh),
              if Queues(gpu) then seen.(pending := true, queued := seen.queued + 1) else seen)
  }

  /** A request to draw leaves its mark when the seat made one. */
  function Marked(f: Frames, was: Seat, now: Seat): Frames {
    if now.redraws > was.redraws then f.(dirty := true) else f
  }

  datatype Event =
    | Client(step: Step)
    | VBlank(gpu: Gpu)
    | Timer(gpu: Gpu)
    | Activate

  predicate Allowed(m: Machine, e: Event) {
    e.Client? ==> !e.step.Refresh? && Possible(m.seat, e.step)
  }

  /** Frames are counted from the last activation of the session. */
  function Advance(m: Machine, e: Event): Machine {
    match e
    case Client(step) =>
      var seat := Next(m.seat, step);
      Machine(seat, Marked(m.frames, m.seat, seat))
    case VBlank(gpu) =>
      Drawn(m.(frames := m.frames.(pending := false, confirmed := m.frames.confirmed + 1)), gpu)
    case Timer(gpu) => Drawn(m, gpu)
    case Activate =>
      Machine(Redrawn(m.seat), m.frames.(pending := false, dirty := true, queued := 0, confirmed := 0))
  }

  class Compositor {
    const size: Size
    var live: set<Id>
    var windows: nat
    var trusted: Option<Id>
    var trustedFull: bool
    var apps: seq<Id>
    var sessionActive: bool
    var idleLockSecs: nat
    var lastInput: int
    var space: map<Id, (nat, nat)>
    var asked: map<Id, Asked>
    var focus: Option<Id>
    var pointer: (real, real)
    var dirty: bool
    var framePending: bool
    ghost var commits: nat
    ghost var redraws: nat
    ghost var queued: nat
    ghost var confirmed: nat
    ghost var tried: int
    ghost var failed: bool
    ghost var shown: int
    ghost var picture: Option<Scene>

    ghost function SeatNow(): Seat
      reads `windows, `live, `trusted, `trustedFull, `apps, `sessionActive, `idleLockSecs, `lastInput,
            `space, `asked, `focus, `pointer, `commits, `redraws
    {
      Seat(size, windows, live, trusted, trustedFull, apps, sessionActive, idleLockSecs, lastInput, space, asked,
           focus, pointer, commits, redraws)
    }

    ghost function FramesNow(): Frames
      reads `dirty, `framePending, `queued, `confirmed, `tried, `failed, `shown, `picture
    {
      Frames(dirty, framePending, queued, confirmed, tried, failed, shown, picture)
    }

    ghost function Now(): Machine
      reads this
    {
      Machine(SeatNow(), FramesNow())
    }

    constructor (size: Size, now: int)
      ensures Now() == Machine(Taken(size, now), FIRST)
    {
      this.size := size;
      live, windows, trusted, trustedFull, apps := {}, 0, None, true, [];
      sessionActive, idleLockSecs, lastInput := false, 0, now;
      space, asked, focus, pointer := map[], map[], None, (0.0, 0.0);
      dirty, framePending := true, false;
      commits, redraws, queued, confirmed := 0, 0, 0, 0;
      tried, failed, shown, picture := -1, false, -1, None;
    }

    method RequestRedraw()
      modifies `dirty, `redraws
      ensures SeatNow() == Redrawn(old(SeatNow()))
      ensures FramesNow() == old(FramesNow()).(dirty := true)
    {
      dirty := true;
      redraws := redraws + 1;
    }

    // ── The parts of arranging

    method UnmapApps()
      modifies `space
      ensures SeatNow() == AppsUnmapped(old(SeatNow()))
    {
      for i := 0 to |apps|
        invariant space == old(space) - (set a | a in apps[..i])
      {
        assert apps[..i + 1] == apps[..i] + [apps[i]];
        space := space - {apps[i]};
      }
      assert apps[..|apps|] == apps;
    }

    method UnmapAll()
      modifies `space
      ensures SeatNow() == AllUnmapped(old(SeatNow()))
    {
      space := map[];
    }

    /** Tell a window what to be, and put it there. */
    method Place(window: Id, what: Asked, at: (nat, nat))
      modifies `space, `asked
      ensures SeatNow() == Placed(old(SeatNow()), window, what, at)
    {
      asked := asked[window := what];
      space := space[window := at];
    }

    method SetFocus(window: Option<Id>)
      modifies `focus
      ensures SeatNow() == Focused(old(SeatNow()), window)
    {
      focus := window;
    }

    method Arrange()
      modifies `space, `asked, `focus, `dirty, `redraws
      ensures SeatNow() == Arranged(old(SeatNow()))
      ensures FramesNow() == old(FramesNow()).(dirty := true)
    {
      PartsNow();
      hide SeatNow, FramesNow, AppsUnmapped, AllUnmapped, Placed, Focused, Redrawn, BarOf, TrustedPart, AppPart, Exclusive;
      var bar := BarOf(size);
      var exclusive := trustedFull || !sessionActive;
      UnmapApps();
      var newFocus: Option<Id> := None;
      if trusted.Some? {
        Place(trusted.value, if exclusive then Asked(size, Screen) else Asked(Size(size.w, bar), Bar), (0, 0));
        newFocus := trusted;
        if !exclusive && apps != [] {
          var app := apps[|apps| - 1];
          Place(app, Asked(Size(size.w, size.h - bar), Below), (0, bar));
          newFocus := Some(app);
        }
      } else {
        UnmapAll();
      }
      SetFocus(newFocus);
      RequestRedraw();
    }

    lemma FieldsNow()
      ensures var s := SeatNow();
        && s.size == size && s.windows == windows && s.live == live && s.trusted == trusted && s.trustedFull == trustedFull
        && s.apps == apps && s.sessionActive == sessionActive && s.lastInput == lastInput && s.space == space
        && s.asked == asked && s.pointer == pointer && s.redraws == redraws
    {
    }

    lemma PartsNow()
      ensures var s := SeatNow();
        && s.trusted == trusted && s.apps == apps && BarOf(s.size) == BarOf(size)
        && (Exclusive(s) <==> trustedFull || !sessionActive)
        && TrustedPart(s) == (if Exclusive(s) then Asked(size, Screen) else Asked(Size(size.w, BarOf(size)), Bar))
        && AppPart(s) == Asked(Size(size.w, size.h - BarOf(size)), Below)
    {
      FieldsNow();
    }

    // ── What clients do

    method Register(ofInterface: bool) returns (window: Id)
      modifies `windows, `live, `trusted, `apps
      ensures window == old(windows)
      ensures SeatNow() == Prepared(old(SeatNow()), Step.NewToplevel(ofInterface))
    {
      hide Arranged, WithoutWindow, Verdict;
      window := windows;
      windows := windows + 1;
      live := live + {window};
      if trusted.None? && ofInterface {
        trusted := Some(window);
      } else {
        apps := apps + [window];
      }
    }

    method NewToplevel(ofInterface: bool) returns (window: Id)
      modifies this
      ensures window == old(windows)
      ensures Now() == Advance(old(Now()), Client(Step.NewToplevel(ofInterface)))
    {
      hide SeatNow, FramesNow, Arranged, Prepared, Next;
      ghost var was := Now();
      window := Register(ofInterface);
      Arrange();
      ArrangedNow(was, Step.NewToplevel(ofInterface));
    }

    /** What has been arranged and marked is what the step says. */
    lemma ArrangedNow(was: Machine, step: Step)
      requires Arranges(was.seat, step)
      requires SeatNow() == Arranged(Prepared(was.seat, step)) && FramesNow() == was.frames.(dirty := true)
      ensures Now() == Advance(was, Client(step))
    {
      hide SeatNow, FramesNow, Arranged, Prepared, Next, Arranges;
      ArrangingStep(was.seat, step);
      ArrangedRedraws(Prepared(was.seat, step));
      PreparedRedraws(was.seat, step);
    }

    method Unregister(window: Id)
      modifies `live, `trusted, `apps
      ensures SeatNow() == Prepared(old(SeatNow()), Step.Destroyed(window))
    {
      hide Arranged, WithoutWindow, Verdict;
      live := live - {window};
      if trusted == Some(window) {
        trusted := None;
      }
      apps := Retained(apps, window);
    }

    static method Retained(apps: seq<Id>, window: Id) returns (kept: seq<Id>)
      ensures kept == WithoutWindow(apps, window)
    {
      kept := [];
      assert apps[0..] == apps;
      for i := 0 to |apps|
        invariant WithoutWindow(apps, window) == kept + WithoutWindow(apps[i..], window)
      {
        assert apps[i..][0] == apps[i] && apps[i..][1..] == apps[i + 1..];
        if apps[i] != window {
          kept := kept + [apps[i]];
        }
      }
      assert apps[|apps|..] == [];
    }

    method ToplevelDestroyed(window: Id)
      modifies this
      ensures Now() == Advance(old(Now()), Client(Step.Destroyed(window)))
    {
      hide SeatNow, FramesNow, Arranged, Prepared, Next;
      ghost var was := Now();
      Unregister(window);
      Arrange();
      ArrangedNow(was, Step.Destroyed(window));
    }

    method SetFull(full: bool)
      modifies `trustedFull
      ensures SeatNow() == old(SeatNow()).(trustedFull := full)
    {
      trustedFull := full;
    }

    method FullscreenRequest(window: Id)
      modifies this
      ensures Now() == Advance(old(Now()), Client(Step.Fullscreen(window)))
    {
      FieldsNow();
      hide SeatNow, FramesNow, Arranged, Next;
      ghost var was := Now();
      if trusted == Some(window) {
        SetFull(true);
      }
      Arrange();
      ArrangedNow(was, Step.Fullscreen(window));
    }

    method UnfullscreenRequest(window: Id)
      modifies this
      ensures Now() == Advance(old(Now()), Client(Step.Unfullscreen(window)))
    {
      FieldsNow();
      hide SeatNow, FramesNow, Arranged, Next;
      ghost var was := Now();
      if trusted == Some(window) {
        SetFull(false);
      }
      Arrange();
      ArrangedNow(was, Step.Unfullscreen(window));
    }

    ghost method Committed()
      modifies `commits
      ensures SeatNow() == old(SeatNow()).(commits := old(commits) + 1) && old(SeatNow()).commits == old(commits)
    {
      commits := commits + 1;
    }

    method OnCommit(window: Id)
      modifies this
      ensures Now() == Advance(old(Now()), Client(Step.Commit(window)))
    {
      hide SeatNow, FramesNow;
      Committed();
      RequestRedraw();
    }

    // ── The session and the input

    method SetSession(active: bool)
      modifies `sessionActive
      ensures SeatNow() == old(SeatNow()).(sessionActive := active)
    {
      sessionActive := active;
    }

    method SetSessionActive(active: bool)
      modifies this
      ensures SeatNow() == SessionSet(old(SeatNow()), active)
      ensures FramesNow() == Marked(old(FramesNow()), old(SeatNow()), SeatNow())
    {
      FieldsNow();
      hide SeatNow, FramesNow, Arranged;
      if sessionActive != active {
        SetSession(active);
        ArrangedRedraws(SeatNow());
        Arrange();
      }
    }

    method SetIdleLock(seconds: nat)
      modifies `idleLockSecs
      ensures SeatNow() == old(SeatNow()).(idleLockSecs := seconds)
    {
      idleLockSecs := seconds;
    }

    /** `answer` is what the Session Service said of its state. */
    method FollowSession(answer: Answer, now: int)
      modifies this
      ensures Now() == Advance(old(Now()), Client(Step.Session(answer, now)))
    {
      FieldsNow();
      hide SeatNow, FramesNow, SessionSet;
      var active, lock := false, 0;
      if answer.Active? {
        active, lock := true, answer.idleLockSecs;
      }
      SetIdleLock(lock);
      var idle := Elapsed(lastInput, now);
      if active && lock > 0 && idle >= lock {
        SetSessionActive(false);
      } else {
        SetSessionActive(active);
      }
    }

    method SetPointer(x: real, y: real)
      modifies `pointer
      ensures SeatNow() == old(SeatNow()).(pointer := (x, y))
    {
      pointer := (x, y);
    }

    method MovePointer(x: real, y: real)
      modifies this
      ensures SeatNow() == PointerAt(old(SeatNow()), x, y)
      ensures FramesNow() == old(FramesNow()).(dirty := true)
    {
      hide SeatNow, FramesNow;
      SetPointer(x, y);
      RequestRedraw();
    }

    method SetLastInput(now: int)
      modifies `lastInput
      ensures SeatNow() == old(SeatNow()).(lastInput := now)
    {
      lastInput := now;
    }

    method OnInput(input: Input, now: int)
      modifies this
      ensures Now() == Advance(old(Now()), Client(Touched(input, now)))
    {
      FieldsNow();
      hide SeatNow, FramesNow, Clamped, Arranged;
      SetLastInput(now);
      match input {
        case Key =>
        case Elsewhere =>
        case Motion(dx, dy) =>
          MovePointer(Clamped(pointer.0 + dx, (size.w - 1) as real), Clamped(pointer.1 + dy, (size.h - 1) as real));
        case Absolute(x, y) =>
          MovePointer(x, y);
        case Press(grabbed, hit) =>
          if !grabbed && hit.Some? {
            SetFocus(hit);
          }
      }
    }

    // ── Frames

    method RefreshSpace()
      modifies `space
      ensures SeatNow() == Next(old(SeatNow()), Refresh)
    {
      space := map w | w in space && w in live :: space[w];
    }

    /** The attempt itself: the mark is taken first. */
    method Attempt(gpu: Gpu)
      requires dirty && !framePending && !gpu.NoElements?
      modifies `dirty, `framePending, `queued, `tried, `failed, `shown, `picture
      ensures FramesNow() == Drawn(old(Now()), gpu).frames
    {
      ghost var seat := SeatNow();
      FieldsNow();
      hide SceneOf, Next, SeatNow;
      dirty := false;
      tried, failed := redraws, !Succeeds(gpu);
      if Succeeds(gpu) {
        shown, picture := redraws, Some(SceneOf(seat));
      }
      if Queues(gpu) {
        framePending := true;
        queued := queued + 1;
      }
    }

    /** Draw one frame, if one is due. */
    method Render(gpu: Gpu)
      modifies this
      ensures Now() == Drawn(old(Now()), gpu)
    {
      FieldsNow();
      hide SeatNow, SceneOf, Next;
      if framePending || !dirty {
        return;
      }
      if gpu.NoElements? {
        return;
      }
      Attempt(gpu);
      RefreshSpace();
    }

    method Confirm()
      modifies `framePending, `confirmed
      ensures FramesNow() == old(FramesNow()).(pending := false, confirmed := old(FramesNow()).confirmed + 1)
    {
      framePending := false;
      confirmed := confirmed + 1;
    }

    method OnVBlank(gpu: Gpu)
      modifies this
      ensures Now() == Advance(old(Now()), VBlank(gpu))
    {
      hide SeatNow, FramesNow, Drawn, Next;
      Confirm();
      Render(gpu);
    }

    method OnTimer(gpu: Gpu)
      modifies this
      ensures Now() == Advance(old(Now()), Timer(gpu))
    {
      hide SeatNow, FramesNow, Drawn, Next;
      Render(gpu);
    }

    method ResetFrames()
      modifies `framePending, `queued, `confirmed
      ensures FramesNow() == old(FramesNow()).(pending := false, queued := 0, confirmed := 0)
    {
      framePending := false;
      queued, confirmed := 0, 0;
    }

    method OnActivate()
      modifies this
      ensures Now() == Advance(old(Now()), Activate)
    {
      hide SeatNow, FramesNow, Drawn, Next;
      ResetFrames();
      RequestRedraw();
    }
  }

  // ── Runs, from their last event back

  predicate Happened(m: Machine, run: seq<Event>)
    decreases |run|
  {
    run != [] ==>
      var before := run[..|run| - 1];
      Happened(m, before) && Allowed(Reached(m, before), run[|run| - 1])
  }

  function Reached(m: Machine, run: seq<Event>): Machine
    decreases |run|
  {
    if run == [] then m else Advance(Reached(m, run[..|run| - 1]), run[|run| - 1])
  }

  function Start(size: Size, now: int): Machine { Machine(Taken(size, now), FIRST) }

  // ── No change is lost

  /** What drawing knows of the seat. */
  ghost predicate InStep(m: Machine) {
    var f := m.frames;
    && Registered(m.seat) && FollowsPolicy(m.seat)
    && f.shown <= f.tried <= m.seat.redraws
    && (f.dirty <==> f.tried < m.seat.redraws)
    && (f.shown == m.seat.redraws ==> f.picture == Some(SceneOf(m.seat)))
    && (f.tried == m.seat.redraws ==> (f.shown == f.tried <==> !f.failed))
  }

  lemma RefreshIsUnseen(s: Seat)
    requires Registered(s) && FollowsPolicy(s)
    ensures var t := Next(s, Refresh);
            Registered(t) && FollowsPolicy(t) && SceneOf(t) == SceneOf(s) && t.redraws == s.redraws
  {
    hide Registered, FollowsPolicy, Shown;
    StepFollowsPolicy(s, Refresh);
    RefreshShows(s);
  }

  lemma DrawnInStep(m: Machine, gpu: Gpu)
    requires InStep(m)
    ensures InStep(Drawn(m, gpu))
  {
    hide Registered, FollowsPolicy, SceneOf, Next;
    RefreshIsUnseen(m.seat);
  }

  lemma ClientInStep(m: Machine, step: Step)
    requires InStep(m) && Allowed(m, Client(step))
    ensures InStep(Advance(m, Client(step)))
  {
    hide Registered, FollowsPolicy, SceneOf, Next, Possible;
    StepFollowsPolicy(m.seat, step);
    ChangesAreRequested(m.seat, step);
  }

  lemma RedrawnStands(s: Seat)
    requires Registered(s) && FollowsPolicy(s)
    ensures Registered(Redrawn(s)) && FollowsPolicy(Redrawn(s))
  {
    hide Shown, Policy;
    SameShown(s, Redrawn(s));
  }

  lemma NextInStep(m: Machine, e: Event)
    requires InStep(m) && Allowed(m, e)
    ensures InStep(Advance(m, e))
  {
    match e
    case Client(step) => ClientInStep(m, step);
    case VBlank(gpu) =>
      hide Registered, FollowsPolicy, SceneOf, Drawn;
      DrawnInStep(m.(frames := m.frames.(pending := false, confirmed := m.frames.confirmed + 1)), gpu);
    case Timer(gpu) => DrawnInStep(m, gpu);
    case Activate =>
      hide Registered, FollowsPolicy, SceneOf;
      RedrawnStands(m.seat);
  }

  lemma {:induction false} RunsInStep(size: Size, start: int, run: seq<Event>)
    requires Happened(Start(size, start), run)
    ensures InStep(Reached(Start(size, start), run))
    decreases |run|
  {
    hide InStep, Advance, Allowed;
    if run == [] {
      StartsInStep(size, start);
    } else {
      RunsInStep(size, start, run[..|run| - 1]);
      NextInStep(Reached(Start(size, start), run[..|run| - 1]), run[|run| - 1]);
    }
  }

  lemma StartsInStep(size: Size, start: int)
    ensures InStep(Start(size, start))
  {
    TakenFollowsPolicy(size, start);
  }

  /** In every reachable state every change to the windows, their contents or the
      pointer has been drawn or is still marked to be drawn, unless the last
      attempt failed on the GPU or left the pointer out of its frame; and then it
      is lost, since the mark was taken before the attempt. */
  lemma EveryChangeIsDrawnOrMarked(size: Size, start: int, run: seq<Event>)
    requires Happened(Start(size, start), run)
    ensures var m := Reached(Start(size, start), run);
            m.frames.dirty
            || (!m.frames.failed && m.frames.shown == m.seat.redraws && m.frames.picture == Some(SceneOf(m.seat)))
            || (m.frames.failed && m.frames.shown < m.seat.redraws)
  {
    hide Reached, Happened, Registered, FollowsPolicy, SceneOf;
    RunsInStep(size, start, run);
  }

  /** The last frame that was attempted, if any was. */
  function LastFrame(m: Machine, run: seq<Event>): Option<Gpu>
    decreases |run|
  {
    if run == [] then None
    else
      var before, e := run[..|run| - 1], run[|run| - 1];
      var f := Reached(m, before).frames;
      match e
      case VBlank(Frame(pointer, end)) => if f.dirty then Some(Frame(pointer, end)) else LastFrame(m, before)
      case Timer(Frame(pointer, end)) => if f.dirty && !f.pending then Some(Frame(pointer, end)) else LastFrame(m, before)
      case _ => LastFrame(m, before)
  }

  /** A frame with its pointer, that is on its way to the screen or changed nothing. */
  predicate IsWhole(gpu: Gpu) {
    gpu == Frame(true, Queued) || gpu == Frame(true, Empty)
  }

  lemma DrawnFails(m: Machine, gpu: Gpu)
    ensures Drawn(m, gpu).frames.failed ==
            if m.frames.pending || !m.frames.dirty || gpu.NoElements? then m.frames.failed else !IsWhole(gpu)
  {
    hide Next, SceneOf;
  }

  lemma {:induction false} FailedExactly(size: Size, start: int, run: seq<Event>)
    ensures var last := LastFrame(Start(size, start), run);
            Reached(Start(size, start), run).frames.failed <==> last.Some? && !IsWhole(last.value)
    decreases |run|
  {
    hide Drawn, IsWhole, Next, Taken;
    if run != [] {
      var before, e := run[..|run| - 1], run[|run| - 1];
      var was := Reached(Start(size, start), before);
      FailedExactly(size, start, before);
      match e
      case VBlank(gpu) =>
        DrawnFails(was.(frames := was.frames.(pending := false, confirmed := was.frames.confirmed + 1)), gpu);
      case Timer(gpu) => DrawnFails(was, gpu);
      case _ =>
    }
  }

  /** In every reachable state in which the last frame attempted was whole, what is to
      be seen has been drawn, or is marked to be; and otherwise, if a frame was
      attempted and nothing is marked, it has not. */
  lemma WholeFramesLoseNothing(size: Size, start: int, run: seq<Event>)
    requires Happened(Start(size, start), run)
    ensures var (m, last) := (Reached(Start(size, start), run), LastFrame(Start(size, start), run));
      && (last.None? ==> m.frames.dirty)
      && (last.Some? && IsWhole(last.value) ==> m.frames.dirty || m.frames.picture == Some(SceneOf(m.seat)))
      && (last.Some? && !IsWhole(last.value) ==> m.frames.dirty || m.frames.shown < m.seat.redraws)
  {
    hide Reached, Happened, Registered, FollowsPolicy, SceneOf, LastFrame;
    RunsInStep(size, start, run);
    FailedExactly(size, start, run);
    NeverAttempted(size, start, run);
  }

  lemma {:induction false} NeverAttempted(size: Size, start: int, run: seq<Event>)
    ensures LastFrame(Start(size, start), run).None? ==> Reached(Start(size, start), run).frames.dirty
    decreases |run|
  {
    hide Next, Taken, SceneOf;
    if run != [] { NeverAttempted(size, start, run[..|run| - 1]); }
  }

  /** Both losses do happen, at the first frame: nothing, or nothing complete, has
      been drawn, and nothing is marked to be. */
  lemma AChangeIsLost(size: Size, start: int, gpu: Gpu)
    requires gpu == Frame(true, NotQueued) || gpu == Frame(false, Queued)
    ensures var (run, m) := ([Timer(gpu)], Reached(Start(size, start), [Timer(gpu)]));
      && Happened(Start(size, start), run)
      && !m.frames.dirty && m.frames.shown < m.seat.redraws && m.frames.picture == None
      && m.frames.pending == gpu.end.Queued?
  {
    var run := [Timer(gpu)];
    assert run[..0] == [];
    hide FollowsPolicy, SceneOf;
  }

  // ── Frames are paced

  /** One frame is on its way to the screen, or none. */
  predicate Paced(f: Frames) {
    f.queued - f.confirmed == if f.pending then 1 else 0
  }

  /** A vertical blank answers a frame that was queued and not yet confirmed. */
  predicate Answers(m: Machine, e: Event) {
    e.VBlank? ==> m.frames.confirmed < m.frames.queued
  }

  lemma NextIsPaced(m: Machine, e: Event)
    requires Paced(m.frames)
    ensures Paced(Advance(m, e).frames) <==> Answers(m, e)
  {
    hide Next, SceneOf;
  }

  predicate AlwaysPaced(m: Machine, run: seq<Event>)
    decreases |run|
  {
    Paced(Reached(m, run).frames) && (run != [] ==> AlwaysPaced(m, run[..|run| - 1]))
  }

  predicate OneBlankPerFrame(m: Machine, run: seq<Event>)
    decreases |run|
  {
    run != [] ==>
      var before := run[..|run| - 1];
      OneBlankPerFrame(m, before) && Answers(Reached(m, before), run[|run| - 1])
  }

  /** Since the last activation, the frames queued and not confirmed are none or
      one, and one exactly when a frame is pending, all along a run exactly when
      each vertical blank in it answers a queued frame. */
  lemma {:induction false} PacedExactly(m: Machine, run: seq<Event>)
    requires Paced(m.frames)
    ensures AlwaysPaced(m, run) <==> OneBlankPerFrame(m, run)
    decreases |run|
  {
    hide Advance, Paced, Answers;
    if run != [] {
      var before := run[..|run| - 1];
      PacedExactly(m, before);
      if AlwaysPaced(m, before) {
        assert Paced(Reached(m, before).frames);
        NextIsPaced(Reached(m, before), run[|run| - 1]);
      }
    }
  }

  /** A frame is never queued while another is on its way. */
  lemma NeverTwoFrames(m: Machine, e: Event)
    requires Paced(m.frames) && Answers(m, e)
    ensures Advance(m, e).frames.queued - Advance(m, e).frames.confirmed in {0, 1}
    ensures !e.VBlank? && m.frames.pending && !e.Activate? ==> Advance(m, e).frames.queued == m.frames.queued
  {
    hide Next, SceneOf;
  }
}
