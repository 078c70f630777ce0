/** The windows of one seat: where each one goes, which has the keyboard, and what
    the Session Service's answers do to them. It starts once the screen has been
    taken, and ends with the process. */
module Seat {
  import opened Text

  /** Windows are numbered as they are created. */
  type Id = nat

  const BAR_HEIGHT := 44
  const SECOND := 1_000_000_000

  datatype Size = Size(w: nat, h: nat)

  datatype Placement = Screen | Bar | Below

  datatype Rect = Rect(x: nat, y: nat, w: nat, h: nat) {
    predicate Covers(px: int, py: int) { x <= px < x + w && y <= py < y + h }
  }

  /** What a window was last asked to be. */
  datatype Asked = Asked(size: Size, placement: Placement)

  datatype Seat = Seat(
    size: Size,
    windows: nat,
    live: set<Id>,
    trusted: Option<Id>,
    trustedFull: bool,
    apps: seq<Id>,
    sessionActive: bool,
    idleLockSecs: nat,
    lastInput: int,
    space: map<Id, (nat, nat)>,
    asked: map<Id, Asked>,
    focus: Option<Id>,
    pointer: (real, real),
    commits: nat,
    redraws: nat)

  function Taken(size: Size, now: int): Seat {
    Seat(size, 0, {}, None, true, [], false, 0, now, map[], map[], None, (0.0, 0.0), 0, 0)
  }

  /** Only the trusted surface may be on the screen now. */
  predicate Exclusive(s: Seat) { s.trustedFull || !s.sessionActive }

  /** The height of the bar: as much as it is made for, or all the screen has. */
  function BarOf(size: Size): (bar: nat)
    ensures bar <= size.h && bar <= 44
    ensures bar == size.h || bar == 44
  {
    if BAR_HEIGHT < size.h then BAR_HEIGHT else size.h
  }

  function Redrawn(s: Seat): Seat { s.(redraws := s.redraws + 1) }

  function Last(apps: seq<Id>): Id
    requires apps != []
  {
    apps[|apps| - 1]
  }

  function AppsUnmapped(s: Seat): Seat { s.(space := s.space - (set a | a in s.apps)) }

  function AllUnmapped(s: Seat): Seat { s.(space := map[]) }

  function Placed(s: Seat, w: Id, what: Asked, at: (nat, nat)): Seat {
    s.(space := s.space[w := at], asked := s.asked[w := what])
  }

  function Focused(s: Seat, w: Option<Id>): Seat { s.(focus := w) }

  function TrustedPart(s: Seat): Asked {
    if Exclusive(s) then Asked(s.size, Screen) else Asked(Size(s.size.w, BarOf(s.size)), Bar)
  }

  function AppPart(s: Seat): Asked { Asked(Size(s.size.w, s.size.h - BarOf(s.size)), Below) }

  /** Put every window where the policy says. */
  function Arranged(s: Seat): Seat {
    match s.trusted
    case None => Redrawn(Focused(AllUnmapped(AppsUnmapped(s)), None))
    case Some(t) =>
      var alone := Placed(AppsUnmapped(s), t, TrustedPart(s), (0, 0));
      if Exclusive(s) || s.apps == [] then Redrawn(Focused(alone, Some(t)))
      else
        var app := Last(s.apps);
        Redrawn(Focused(Placed(alone, app, AppPart(s), (0, BarOf(s.size))), Some(app)))
  }

  function WithoutWindow(apps: seq<Id>, w: Id): seq<Id> {
    if apps == [] then []
    else (if apps[0] == w then [] else [apps[0]]) + WithoutWindow(apps[1..], w)
  }

  /** What the Session Service says: active, with the seconds after which an idle
      session is to be locked, or anything else, also nothing. */
  datatype Answer = Active(idleLockSecs: nat) | NotActive

  datatype Input =
    | Key
    | Motion(dx: real, dy: real)
    | Absolute(x: real, y: real)
    | Press(grabbed: bool, hit: Option<Id>)
    | Elsewhere

  datatype Step =
    | NewToplevel(ofInterface: bool)
    | Destroyed(window: Id)
    | Fullscreen(window: Id)
    | Unfullscreen(window: Id)
    | Commit(window: Id)
    | Session(answer: Answer, now: int)
    | Touched(input: Input, now: int)
    | Refresh

  function Clamped(v: real, max: real): real {
    if v < 0.0 then 0.0 else if v > max then max else v
  }

  function Elapsed(since: int, now: int): nat {
    if now < since then 0 else (now - since) / SECOND
  }

  /** Whether an answer leaves the session active on this seat. */
  predicate Verdict(answer: Answer, lastInput: int, now: int) {
    answer.Active? && !(answer.idleLockSecs > 0 && Elapsed(lastInput, now) >= answer.idleLockSecs)
  }

  function SessionSet(s: Seat, active: bool): Seat {
    if s.sessionActive != active then Arranged(s.(sessionActive := active)) else s
  }

  function Followed(s: Seat, answer: Answer, now: int): Seat {
    var heard := s.(idleLockSecs := if answer.Active? then answer.idleLockSecs else 0);
    SessionSet(heard, Verdict(answer, s.lastInput, now))
  }

  function PointerAt(s: Seat, x: real, y: real): Seat { Redrawn(s.(pointer := (x, y))) }

  function Received(was: Seat, input: Input, now: int): Seat {
    var s := was.(lastInput := now);
    match input
    case Key | Elsewhere => s
    case Motion(dx, dy) =>
      PointerAt(s, Clamped(s.pointer.0 + dx, (s.size.w - 1) as real), Clamped(s.pointer.1 + dy, (s.size.h - 1) as real))
    case Absolute(x, y) => PointerAt(s, x, y)
    case Press(grabbed, hit) => if !grabbed && hit.Some? then s.(focus := hit) else s
  }

  /** Clients act on windows they have; a press reaches a window that is mapped,
      wherever its client drew it. */
  predicate Possible(s: Seat, step: Step) {
    match step
    case NewToplevel(_) => true
    case Destroyed(w) => w in s.live
    case Fullscreen(w) => w in s.live
    case Unfullscreen(w) => w in s.live
    case Commit(w) => w in s.live
    case Session(_, _) => true
    case Touched(Press(_, hit), _) => hit.Some? ==> hit.value in s.space
    case Touched(Motion(_, _), _) => s.size.w > 0 && s.size.h > 0
    case Touched(_, _) => true
    case Refresh => true
  }

  function Next(s: Seat, step: Step): Seat {
    match step
    case NewToplevel(ofInterface) =>
      var w := s.windows;
      var born := s.(windows := w + 1, live := s.live + {w});
      Arranged(if s.trusted.None? && ofInterface then born.(trusted := Some(w)) else born.(apps := s.apps + [w]))
    case Destroyed(w) =>
      Arranged(s.(live := s.live - {w},
                  trusted := if s.trusted == Some(w) then None else s.trusted,
                  apps := WithoutWindow(s.apps, w)))
    case Fullscreen(w) => Arranged(if s.trusted == Some(w) then s.(trustedFull := true) else s)
    case Unfullscreen(w) => Arranged(if s.trusted == Some(w) then s.(trustedFull := false) else s)
    case Commit(_) => Redrawn(s.(commits := s.commits + 1))
    case Session(answer, now) => Followed(s, answer, now)
    case Touched(input, now) => Received(s, input, now)
    case Refresh => s.(space := map w | w in s.space && w in s.live :: s.space[w])
  }

  /** Where the live windows on the screen are. */
  function Shown(s: Seat): map<Id, Rect> {
    map w | w in s.space && w in s.live && w in s.asked ::
      Rect(s.space[w].0, s.space[w].1, s.asked[w].size.w, s.asked[w].size.h)
  }

  // ── The policy

  function ScreenRect(size: Size): Rect { Rect(0, 0, size.w, size.h) }

  function BarRect(size: Size): Rect { Rect(0, 0, size.w, BarOf(size)) }

  function BelowRect(size: Size): Rect { Rect(0, BarOf(size), size.w, size.h - BarOf(size)) }

  /** What is on the screen, of nothing but who is there and what was asked. */
  function Policy(size: Size, trusted: Option<Id>, full: bool, active: bool, apps: seq<Id>): map<Id, Rect> {
    match trusted
    case None => map[]
    case Some(t) =>
      if full || !active then map[t := ScreenRect(size)]
      else if apps == [] then map[t := BarRect(size)]
      else map[t := BarRect(size), Last(apps) := BelowRect(size)]
  }

  /** The bar and the area below it share out the screen, whatever its height:
      every point of it is in exactly one of them, and none lies outside. */
  lemma BarAndBelowPartition(size: Size, px: int, py: int)
    ensures ScreenRect(size).Covers(px, py) <==> 0 <= px < size.w && 0 <= py < size.h
    ensures ScreenRect(size).Covers(px, py) <==> BarRect(size).Covers(px, py) || BelowRect(size).Covers(px, py)
    ensures !(BarRect(size).Covers(px, py) && BelowRect(size).Covers(px, py))
    ensures ScreenRect(size).Covers(px, py) ==> (BarRect(size).Covers(px, py) <==> py < 44)
  {
  }

  // ── What every step keeps

  predicate NoneTwice(apps: seq<Id>) { forall i, j :: 0 <= i < j < |apps| ==> apps[i] != apps[j] }

  /** The live windows are the trusted one and the applications, each once. */
  predicate Registered(s: Seat) {
    && NoneTwice(s.apps)
    && (s.trusted.Some? ==> s.trusted.value in s.live && s.trusted.value !in s.apps)
    && (forall a <- s.apps :: a in s.live)
    && (forall w <- s.live :: w < s.windows && (s.trusted == Some(w) || w in s.apps))
    && (forall w <- s.space :: w < s.windows)
    && (s.focus.Some? ==> s.focus.value < s.windows)
  }

  predicate FollowsPolicy(s: Seat) {
    && Shown(s) == Policy(s.size, s.trusted, s.trustedFull, s.sessionActive, s.apps)
    && forall w <- s.space :: w in s.live ==> w in s.asked
  }

  lemma ArrangedFollowsPolicy(s: Seat)
    requires Registered(s)
    ensures Registered(Arranged(s)) && FollowsPolicy(Arranged(s))
  {
    hide Registered, Policy, Shown, Arranged;
    ArrangedIsRegistered(s);
    ArrangedShows(s);
    ArrangedFields(s);
  }

  lemma ArrangedFields(s: Seat)
    ensures var t := Arranged(s);
      && t.size == s.size && t.trusted == s.trusted && t.trustedFull == s.trustedFull
      && t.sessionActive == s.sessionActive && t.apps == s.apps && t.live == s.live && t.windows == s.windows
  {
    hide BarOf, TrustedPart, AppPart;
  }

  /** Arranging names no window that was not there. */
  lemma ArrangedNames(s: Seat)
    ensures var t := Arranged(s);
      && (forall w <- t.space :: w in s.space || s.trusted == Some(w) || w in s.apps)
      && (t.focus.Some? ==> s.trusted == t.focus || t.focus.value in s.apps)
  {
    hide BarOf, TrustedPart, AppPart;
  }

  lemma ArrangedIsRegistered(s: Seat)
    requires Registered(s)
    ensures Registered(Arranged(s))
  {
    hide NoneTwice, Arranged;
    ArrangedFields(s);
    ArrangedNames(s);
  }

  /** What is mapped and alive after arranging is what arranging mapped. */
  lemma ArrangedSpace(s: Seat)
    requires Registered(s)
    ensures var t := Arranged(s);
      forall w :: w in t.space && w in t.live <==>
        s.trusted.Some? && (s.trusted == Some(w) || (!Exclusive(s) && s.apps != [] && w == Last(s.apps)))
  {
    hide NoneTwice, BarOf;
  }

  /** Where arranging puts one window is what the policy says of it. */
  lemma ArrangedAt(s: Seat, w: Id)
    requires Registered(s)
    ensures var t := Arranged(s); var policy := Policy(s.size, s.trusted, s.trustedFull, s.sessionActive, s.apps);
      && (w in t.space && w in t.live <==> w in policy)
      && (w in policy ==>
            w in t.asked && policy[w] == Rect(t.space[w].0, t.space[w].1, t.asked[w].size.w, t.asked[w].size.h))
  {
    hide NoneTwice, BarOf;
    ArrangedSpace(s);
    if s.apps != [] { assert Last(s.apps) in s.apps; }
  }

  lemma ShownIs(t: Seat, places: map<Id, Rect>)
    requires forall w :: w in t.space && w in t.live <==> w in places
    requires forall w <- places ::
      w in t.asked && places[w] == Rect(t.space[w].0, t.space[w].1, t.asked[w].size.w, t.asked[w].size.h)
    ensures Shown(t) == places
  {
  }

  lemma ArrangedShows(s: Seat)
    requires Registered(s)
    ensures var t := Arranged(s);
      && Shown(t) == Policy(s.size, s.trusted, s.trustedFull, s.sessionActive, s.apps)
      && forall w <- t.space :: w in t.live ==> w in t.asked
  {
    hide *;
    var t := Arranged(s);
    var policy := Policy(s.size, s.trusted, s.trustedFull, s.sessionActive, s.apps);
    forall w
      ensures w in t.space && w in t.live <==> w in policy
      ensures w in policy ==>
        w in t.asked && policy[w] == Rect(t.space[w].0, t.space[w].1, t.asked[w].size.w, t.asked[w].size.h)
    {
      ArrangedAt(s, w);
    }
    ShownIs(t, policy);
  }

  lemma {:induction false} WithoutKeeps(apps: seq<Id>, w: Id)
    ensures forall a :: a in WithoutWindow(apps, w) <==> a in apps && a != w
    ensures NoneTwice(apps) ==> NoneTwice(WithoutWindow(apps, w))
  {
    if apps != [] {
      WithoutKeeps(apps[1..], w);
      assert apps == [apps[0]] + apps[1..];
      if NoneTwice(apps) {
        assert apps[0] !in apps[1..];
        assert NoneTwice(apps[1..]);
      }
    }
  }

  predicate Arranges(s: Seat, step: Step) {
    match step
    case NewToplevel(_) => true
    case Destroyed(_) => true
    case Fullscreen(_) => true
    case Unfullscreen(_) => true
    case Session(answer, now) => s.sessionActive != Verdict(answer, s.lastInput, now)
    case Commit(_) => false
    case Touched(_, _) => false
    case Refresh => false
  }

  /** The state an arranging step hands to `Arranged`. */
  function Prepared(s: Seat, step: Step): Seat
    requires Arranges(s, step)
  {
    match step
    case NewToplevel(ofInterface) =>
      var w := s.windows;
      var born := s.(windows := w + 1, live := s.live + {w});
      if s.trusted.None? && ofInterface then born.(trusted := Some(w)) else born.(apps := s.apps + [w])
    case Destroyed(w) =>
      s.(live := s.live - {w},
         trusted := if s.trusted == Some(w) then None else s.trusted,
         apps := WithoutWindow(s.apps, w))
    case Fullscreen(w) => if s.trusted == Some(w) then s.(trustedFull := true) else s
    case Unfullscreen(w) => if s.trusted == Some(w) then s.(trustedFull := false) else s
    case Session(answer, now) =>
      s.(idleLockSecs := if answer.Active? then answer.idleLockSecs else 0,
         sessionActive := Verdict(answer, s.lastInput, now))
  }

  lemma ArrangingStep(s: Seat, step: Step)
    requires Arranges(s, step)
    ensures Next(s, step) == Arranged(Prepared(s, step))
  {
    hide Arranged, WithoutWindow, Verdict;
  }

  lemma PreparedIsRegistered(s: Seat, step: Step)
    requires Registered(s) && Arranges(s, step)
    ensures Registered(Prepared(s, step))
  {
    hide Verdict, WithoutWindow;
    match step
    case Destroyed(w) => WithoutKeeps(s.apps, w);
    case NewToplevel(_) => assert s.windows !in s.apps;
    case Fullscreen(_) =>
    case Unfullscreen(_) =>
    case Session(_, _) =>
  }

  /** The windows, and who they are, are the same. */
  predicate SameWindows(s: Seat, t: Seat) {
    && t.size == s.size && t.trusted == s.trusted && t.trustedFull == s.trustedFull
    && t.sessionActive == s.sessionActive && t.apps == s.apps && t.live == s.live && t.windows == s.windows
    && t.space == s.space && t.asked == s.asked
  }

  lemma ReceivedFields(s: Seat, input: Input, now: int)
    requires input.Press? && input.hit.Some? ==> input.hit.value in s.space
    ensures var t := Received(s, input, now);
      && SameWindows(s, t) && (t.focus == s.focus || (t.focus.Some? && t.focus.value in s.space))
      && (t.redraws == s.redraws ==> t.commits == s.commits && t.pointer == s.pointer) && s.redraws <= t.redraws
  {
    hide Clamped;
  }

  /** What a step that neither arranges nor refreshes leaves as it was. */
  lemma QuietFields(s: Seat, step: Step)
    requires !Arranges(s, step) && !step.Refresh? && Possible(s, step)
    ensures var t := Next(s, step);
      && SameWindows(s, t) && (t.focus == s.focus || (t.focus.Some? && t.focus.value in s.space))
      && (t.redraws == s.redraws ==> t.commits == s.commits && t.pointer == s.pointer) && s.redraws <= t.redraws
  {
    hide Arranged, Verdict, Received;
    if step.Touched? {
      hide SameWindows;
      ReceivedFields(s, step.input, step.now);
    }
  }

  lemma RefreshShows(s: Seat)
    ensures Shown(Next(s, Refresh)) == Shown(s)
  {
    hide Arranged;
  }

  lemma SameShown(s: Seat, t: Seat)
    requires t.live == s.live && t.space == s.space && t.asked == s.asked
    ensures Shown(t) == Shown(s)
  {
  }

  lemma QuietStep(s: Seat, step: Step)
    requires Registered(s) && FollowsPolicy(s) && Possible(s, step) && !Arranges(s, step)
    ensures Registered(Next(s, step)) && FollowsPolicy(Next(s, step))
    ensures Shown(Next(s, step)) == Shown(s)
  {
    hide Arranged, Shown, Policy, NoneTwice, Arranges, Possible;
    if step.Refresh? {
      RefreshShows(s);
    } else {
      hide Next;
      QuietFields(s, step);
      SameShown(s, Next(s, step));
    }
  }

  lemma StepFollowsPolicy(s: Seat, step: Step)
    requires Registered(s) && FollowsPolicy(s) && Possible(s, step)
    ensures Registered(Next(s, step)) && FollowsPolicy(Next(s, step))
  {
    hide Registered, FollowsPolicy, Arranged, Next, Possible;
    if Arranges(s, step) {
      PreparedIsRegistered(s, step);
      ArrangedFollowsPolicy(Prepared(s, step));
      ArrangingStep(s, step);
    } else {
      QuietStep(s, step);
    }
  }

  // ── Runs, from their last step back

  function After(s: Seat, run: seq<Step>): Seat
    decreases |run|
  {
    if run == [] then s else Next(After(s, run[..|run| - 1]), run[|run| - 1])
  }

  predicate Happens(s: Seat, run: seq<Step>)
    decreases |run|
  {
    run != [] ==>
      var before := run[..|run| - 1];
      Happens(s, before) && Possible(After(s, before), run[|run| - 1])
  }

  lemma TakenFollowsPolicy(size: Size, now: int)
    ensures Registered(Taken(size, now)) && FollowsPolicy(Taken(size, now))
  {
  }

  lemma {:induction false} RunsFollowPolicy(size: Size, start: int, run: seq<Step>)
    requires Happens(Taken(size, start), run)
    ensures var s := After(Taken(size, start), run);
            Registered(s) && FollowsPolicy(s)
    decreases |run|
  {
    hide Next, Possible, Registered, FollowsPolicy, Taken;
    if run == [] {
      TakenFollowsPolicy(size, start);
    } else {
      RunsFollowPolicy(size, start, run[..|run| - 1]);
      StepFollowsPolicy(After(Taken(size, start), run[..|run| - 1]), run[|run| - 1]);
    }
  }

  /** In every reachable state the live windows on the screen, and their places,
      are what the policy says of who is there. */
  lemma ScreenIsThePolicy(size: Size, start: int, run: seq<Step>)
    requires Happens(Taken(size, start), run)
    ensures var s := After(Taken(size, start), run);
            Shown(s) == Policy(size, s.trusted, s.trustedFull, s.sessionActive, s.apps)
  {
    hide Next, Possible, Registered, Policy, Shown, Taken;
    RunsFollowPolicy(size, start, run);
    SizeStays(size, start, run);
  }

  lemma {:induction false} SizeStays(size: Size, start: int, run: seq<Step>)
    ensures After(Taken(size, start), run).size == size
    decreases |run|
  {
    hide Next;
    if run != [] {
      SizeStays(size, start, run[..|run| - 1]);
      StepKeepsSize(After(Taken(size, start), run[..|run| - 1]), run[|run| - 1]);
    }
  }

  lemma StepKeepsSize(s: Seat, step: Step)
    ensures Next(s, step).size == s.size
  {
    hide Arranged, WithoutWindow, Verdict, Clamped;
    if Arranges(s, step) {
      ArrangedFields(Prepared(s, step));
      ArrangingStep(s, step);
    }
  }

  // ── The session

  /** What the last answer said, when it came. */
  predicate LastVerdict(s: Seat, run: seq<Step>)
    decreases |run|
  {
    run != [] &&
      var before, step := run[..|run| - 1], run[|run| - 1];
      if step.Session? then Verdict(step.answer, After(s, before).lastInput, step.now)
      else LastVerdict(s, before)
  }

  lemma StepSetsSession(s: Seat, step: Step)
    ensures Next(s, step).sessionActive
         == if step.Session? then Verdict(step.answer, s.lastInput, step.now) else s.sessionActive
  {
    hide Arranged, WithoutWindow, Verdict, Clamped;
    if Arranges(s, step) {
      ArrangedFields(Prepared(s, step));
      ArrangingStep(s, step);
    }
  }

  lemma {:induction false} SessionIsLastVerdict(size: Size, start: int, run: seq<Step>)
    ensures After(Taken(size, start), run).sessionActive <==> LastVerdict(Taken(size, start), run)
    decreases |run|
  {
    hide Next, Verdict;
    if run != [] {
      SessionIsLastVerdict(size, start, run[..|run| - 1]);
      StepSetsSession(After(Taken(size, start), run[..|run| - 1]), run[|run| - 1]);
    }
  }

  /** An application is on the screen only beside a trusted surface that left the
      whole screen, and only while the last answer of the Session Service was
      that a session is active and the person had not been idle too long. */
  lemma AppsShownOnlyInASession(size: Size, start: int, run: seq<Step>, w: Id)
    requires Happens(Taken(size, start), run)
    ensures var s := After(Taken(size, start), run);
            w in Shown(s) && s.trusted != Some(w) ==>
              && s.trusted.Some? && !s.trustedFull && LastVerdict(Taken(size, start), run)
              && s.apps != [] && w == Last(s.apps)
  {
    hide Next, Possible, Registered, Shown, Taken, Happens, LastVerdict, After, FollowsPolicy;
    ScreenIsThePolicy(size, start, run);
    SessionIsLastVerdict(size, start, run);
  }

  // ── The keyboard

  predicate FocusIsGood(s: Seat) {
    s.focus.Some? ==>
      && s.focus.value in s.live && s.focus.value in s.space
      && (Exclusive(s) ==> s.trusted == s.focus)
  }

  predicate Focuses(step: Step) {
    step.Touched? && step.input.Press? && !step.input.grabbed && step.input.hit.Some?
  }

  /** The keyboard was last given by a press on a window that was already gone:
      such a window stays mapped until the next refresh. */
  predicate GivenToTheGone(s: Seat, run: seq<Step>)
    decreases |run|
  {
    run != [] &&
      var before, step := run[..|run| - 1], run[|run| - 1];
      var was := After(s, before);
      if Focuses(step) then step.input.hit.value !in was.live
      else !Arranges(was, step) && GivenToTheGone(s, before)
  }

  lemma ArrangedFocusIsGood(s: Seat)
    requires Registered(s)
    ensures FocusIsGood(Arranged(s))
  {
  }

  lemma PressFocus(s: Seat, step: Step)
    requires Registered(s) && FollowsPolicy(s) && Possible(s, step) && Focuses(step)
    ensures FocusIsGood(Next(s, step)) <==> step.input.hit.value in s.live
  {
    hide Arranged, Verdict, Registered;
    var w := step.input.hit.value;
    if w in s.live && Exclusive(s) {
      assert w in Shown(s);
    }
  }

  lemma QuietFocus(s: Seat, step: Step)
    requires Registered(s) && Possible(s, step) && !Focuses(step) && !Arranges(s, step)
    ensures FocusIsGood(Next(s, step)) <==> FocusIsGood(s)
  {
    hide Arranged, Verdict, Registered, Clamped;
  }

  /** In every reachable state the keyboard is with no window or with a live one
      that is mapped, and with the trusted surface while it is alone on the
      screen, exactly unless it was last given to a window already gone. */
  lemma {:induction false} FocusIsGoodExactly(size: Size, start: int, run: seq<Step>)
    requires Happens(Taken(size, start), run)
    ensures FocusIsGood(After(Taken(size, start), run)) <==> !GivenToTheGone(Taken(size, start), run)
    decreases |run|
  {
    hide Next, Possible, Registered, FollowsPolicy, FocusIsGood, Arranges, Focuses;
    if run == [] {
      NoFocus(size, start);
    } else {
      var before, step := run[..|run| - 1], run[|run| - 1];
      var was := After(Taken(size, start), before);
      FocusIsGoodExactly(size, start, before);
      RunsFollowPolicy(size, start, before);
      if Focuses(step) {
        PressFocus(was, step);
      } else if Arranges(was, step) {
        PreparedIsRegistered(was, step);
        ArrangedFocusIsGood(Prepared(was, step));
        ArrangingStep(was, step);
      } else {
        QuietFocus(was, step);
      }
    }
  }

  // A run with a press on a window already gone

  /** One more step of a run. */
  lemma OneMore(start: Seat, run: seq<Step>, s: Seat, step: Step) returns (longer: seq<Step>, t: Seat)
    requires Happens(start, run) && After(start, run) == s && Possible(s, step)
    ensures longer == run + [step] && t == Next(s, step) && Happens(start, longer) && After(start, longer) == t
  {
    hide Next, Possible;
    longer, t := run + [step], Next(s, step);
    assert longer[..|run|] == run;
  }

  lemma BarShown(size: Size) returns (run: seq<Step>, s: Seat)
    ensures Happens(Taken(size, 0), run) && After(Taken(size, 0), run) == s
    ensures s.windows == 1 && s.live == {0} && s.trusted == Some(0) && s.apps == []
    ensures !Exclusive(s) && s.space.Keys == {0}
  {
    hide Happens, After;
    var start := Taken(size, 0);
    NothingYet(start);
    run, s := OneMore(start, [], start, NewToplevel(true));
    assert s.windows == 1 && s.live == {0} && s.trusted == Some(0) && s.apps == [] && s.space.Keys == {0};
    run, s := OneMore(start, run, s, Unfullscreen(0));
    assert s.apps == [] && !s.trustedFull && s.space.Keys == {0};
    run, s := OneMore(start, run, s, Session(Active(0), 0));
  }

  lemma AppDestroyed(size: Size) returns (run: seq<Step>, s: Seat)
    ensures Happens(Taken(size, 0), run) && After(Taken(size, 0), run) == s
    ensures s.live == {0} && 1 in s.space
  {
    hide Happens, After;
    var start := Taken(size, 0);
    run, s := BarShown(size);
    run, s := OneMore(start, run, s, NewToplevel(false));
    assert s.live == {0, 1} && s.trusted == Some(0) && s.apps == [1] && 1 in s.space;
    assert [1][1..] == [];
    run, s := OneMore(start, run, s, Destroyed(1));
  }

  /** That press does happen: an application is destroyed, stays mapped until the
      next refresh, and a press gives the keyboard to it. */
  lemma FocusCanBeGone(size: Size) returns (run: seq<Step>)
    ensures Happens(Taken(size, 0), run)
    ensures var s := After(Taken(size, 0), run); s.focus == Some(1) && 1 !in s.live && !FocusIsGood(s)
  {
    hide Happens, After;
    var s;
    run, s := AppDestroyed(size);
    run, s := OneMore(Taken(size, 0), run, s, Touched(Press(false, Some(1)), 0));
  }

  lemma NothingYet(s: Seat)
    ensures Happens(s, []) && After(s, []) == s
  {
  }

  lemma NoFocus(size: Size, start: int)
    ensures FocusIsGood(Taken(size, start))
  {
  }

  // ── What is seen

  /** The picture the screen should show. */
  datatype Scene = Scene(windows: map<Id, Rect>, commits: nat, pointer: (real, real))

  function SceneOf(s: Seat): Scene { Scene(Shown(s), s.commits, s.pointer) }

  /** What is to be seen changes only together with a request to draw. */
  lemma ChangesAreRequested(s: Seat, step: Step)
    requires Registered(s) && FollowsPolicy(s) && Possible(s, step)
    ensures s.redraws <= Next(s, step).redraws
    ensures Next(s, step).redraws == s.redraws ==> SceneOf(Next(s, step)) == SceneOf(s)
  {
    hide Registered, FollowsPolicy, Shown, Arranged, Arranges, Possible, Prepared;
    if Arranges(s, step) {
      hide Next;
      ArrangingStep(s, step);
      ArrangedRedraws(Prepared(s, step));
      PreparedRedraws(s, step);
    } else if step.Refresh? {
      RefreshShows(s);
    } else {
      hide Next;
      QuietFields(s, step);
      SameShown(s, Next(s, step));
    }
  }

  lemma ArrangedRedraws(s: Seat)
    ensures Arranged(s).redraws == s.redraws + 1
  {
  }

  lemma PreparedRedraws(s: Seat, step: Step)
    requires Arranges(s, step)
    ensures Prepared(s, step).redraws == s.redraws
  {
    hide WithoutWindow, Verdict;
  }
}
