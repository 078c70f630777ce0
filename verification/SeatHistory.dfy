/** What a seat is, told by what happened to it: where its windows are, who is
    trusted, who has the keyboard, and how long the session counts. */
module SeatHistory {
  import opened Text
  import opened Seat

  // ── Places

  /** What the windows on the screen were last asked to be is what they are there. */
  predicate AskedRight(s: Seat) {
    s.trusted.Some? ==>
      && s.trusted.value in s.asked && s.asked[s.trusted.value] == TrustedPart(s)
      && (!Exclusive(s) && s.apps != [] ==> Last(s.apps) in s.asked && s.asked[Last(s.apps)] == AppPart(s))
  }

  lemma ArrangedAsks(s: Seat)
    requires Registered(s)
    ensures AskedRight(Arranged(s))
  {
    hide BarOf, NoneTwice;
    if s.apps != [] { assert Last(s.apps) in s.apps; }
  }

  lemma StepAsks(s: Seat, step: Step)
    requires Registered(s) && Possible(s, step) && AskedRight(s)
    ensures AskedRight(Next(s, step))
  {
    hide AskedRight, Arranged, Next, Registered, Possible, Arranges;
    if Arranges(s, step) {
      ArrangingStep(s, step);
      PreparedIsRegistered(s, step);
      ArrangedAsks(Prepared(s, step));
    } else if step.Refresh? {
      RefreshAsks(s);
    } else {
      QuietFields(s, step);
      SameAsked(s, Next(s, step));
    }
  }

  lemma RefreshAsks(s: Seat)
    ensures AskedRight(Next(s, Refresh)) == AskedRight(s)
  {
  }

  lemma SameAsked(s: Seat, t: Seat)
    requires SameWindows(s, t)
    ensures AskedRight(t) == AskedRight(s)
  {
  }

  lemma {:induction false} RunsAsk(size: Size, start: int, run: seq<Step>)
    requires Happens(Taken(size, start), run)
    ensures AskedRight(After(Taken(size, start), run))
    decreases |run|
  {
    hide Next, Possible, Registered, FollowsPolicy, AskedRight;
    if run == [] {
      NothingAsked(size, start);
    } else {
      var before := run[..|run| - 1];
      RunsAsk(size, start, before);
      RunsFollowPolicy(size, start, before);
      StepAsks(After(Taken(size, start), before), run[|run| - 1]);
    }
  }

  lemma NothingAsked(size: Size, start: int)
    ensures AskedRight(Taken(size, start))
  {
  }

  /** In every reachable state: without a trusted surface nothing is shown; while it
      is alone it has the whole screen; otherwise it is a bar of forty-four, or of
      all there is, across the top, and the newest application has what is below.
      No other window is shown, and each was asked for what it has. */
  lemma WindowsAreWhereTheyBelong(size: Size, start: int, run: seq<Step>)
    requires Happens(Taken(size, start), run)
    ensures var s := After(Taken(size, start), run); var shown := Shown(s);
      && (s.trusted.None? ==> shown == map[])
      && (s.trusted.Some? ==>
            var t := s.trusted.value;
            && (s.trustedFull || !s.sessionActive ==>
                  shown == map[t := Rect(0, 0, size.w, size.h)] && t in s.asked && s.asked[t] == Asked(size, Screen))
            && (!s.trustedFull && s.sessionActive ==>
                  var h := if size.h >= 44 then 44 else size.h;
                  && t in shown && shown[t] == Rect(0, 0, size.w, h)
                  && t in s.asked && s.asked[t] == Asked(Size(size.w, h), Bar)
                  && (s.apps == [] ==> shown.Keys == {t})
                  && (s.apps != [] ==>
                        var a := s.apps[|s.apps| - 1];
                        && a != t && shown.Keys == {t, a} && shown[a] == Rect(0, h, size.w, size.h - h)
                        && a in s.asked && s.asked[a] == Asked(Size(size.w, size.h - h), Below))))
  {
    hide Next, Possible, Shown, Taken, Happens, After, NoneTwice, FollowsPolicy;
    ScreenIsThePolicy(size, start, run);
    SizeStays(size, start, run);
    RunsAsk(size, start, run);
    RunsFollowPolicy(size, start, run);
    var s := After(Taken(size, start), run);
    if s.apps != [] { assert Last(s.apps) in s.apps; }
  }

  // ── Who is trusted

  /** A window of the interface, created while nobody was trusted. */
  predicate BornTrusted(s: Seat, run: seq<Step>, w: Id) {
    exists i :: 0 <= i < |run| && run[i] == NewToplevel(true)
                && After(s, run[..i]).windows == w && After(s, run[..i]).trusted.None?
  }

  lemma StillBorn(s: Seat, run: seq<Step>, w: Id)
    requires run != [] && BornTrusted(s, run[..|run| - 1], w)
    ensures BornTrusted(s, run, w)
  {
    hide After;
    var before := run[..|run| - 1];
    var i :| 0 <= i < |before| && before[i] == NewToplevel(true)
             && After(s, before[..i]).windows == w && After(s, before[..i]).trusted.None?;
    assert before[..i] == run[..i];
  }

  /** Who is trusted after one step. */
  lemma StepTrusts(s: Seat, step: Step)
    ensures var t := Next(s, step).trusted;
      && (step == NewToplevel(true) && s.trusted.None? ==> t == Some(s.windows))
      && (step.Destroyed? && s.trusted == Some(step.window) ==> t == None)
      && (t != s.trusted ==> t == None || (step == NewToplevel(true) && s.trusted.None? && t == Some(s.windows)))
      && (t != s.trusted && t == None ==> step.Destroyed? && s.trusted == Some(step.window))
  {
    hide Arranged, Verdict, Clamped, WithoutWindow;
    if Arranges(s, step) {
      ArrangingStep(s, step);
      ArrangedFields(Prepared(s, step));
    }
  }

  /** No client but the interface is ever trusted: in every run, who is trusted was
      created by it while nobody was. */
  lemma {:induction false} OnlyTheInterfaceIsTrusted(s: Seat, run: seq<Step>)
    requires s.trusted.None?
    ensures After(s, run).trusted.Some? ==> BornTrusted(s, run, After(s, run).trusted.value)
    decreases |run|
  {
    hide Next, BornTrusted;
    if run != [] {
      var before, step := run[..|run| - 1], run[|run| - 1];
      var was := After(s, before);
      OnlyTheInterfaceIsTrusted(s, before);
      StepTrusts(was, step);
      if After(s, run).trusted == was.trusted && was.trusted.Some? {
        StillBorn(s, run, was.trusted.value);
      } else if After(s, run).trusted.Some? {
        JustBorn(s, run);
      }
    }
  }

  lemma JustBorn(s: Seat, run: seq<Step>)
    requires run != [] && run[|run| - 1] == NewToplevel(true) && After(s, run[..|run| - 1]).trusted.None?
    ensures BornTrusted(s, run, After(s, run[..|run| - 1]).windows)
  {
    hide After;
    var i := |run| - 1;
    assert run[i] == NewToplevel(true);
  }

  /** The applications, in the order in which they came. */
  predicate Ascending(apps: seq<Id>) { forall i, j :: 0 <= i < j < |apps| ==> apps[i] < apps[j] }

  lemma {:induction false} WithoutAscends(apps: seq<Id>, w: Id)
    requires Ascending(apps)
    ensures Ascending(WithoutWindow(apps, w))
  {
    if apps != [] {
      var rest := WithoutWindow(apps[1..], w);
      assert Ascending(apps[1..]) by {
        assert forall i :: 0 <= i < |apps[1..]| ==> apps[1..][i] == apps[i + 1];
      }
      WithoutAscends(apps[1..], w);
      WithoutKeeps(apps[1..], w);
      forall j | 0 <= j < |rest| ensures apps[0] < rest[j] {
        assert rest[j] in apps[1..];
        var k :| 0 <= k < |apps[1..]| && apps[1..][k] == rest[j];
        assert apps[k + 1] == rest[j];
      }
    }
  }

  lemma PreparedAscends(s: Seat, step: Step)
    requires Registered(s) && Ascending(s.apps) && Arranges(s, step)
    ensures Ascending(Prepared(s, step).apps)
  {
    hide Verdict, WithoutWindow, NoneTwice;
    if step.Destroyed? { WithoutAscends(s.apps, step.window); }
    forall i | 0 <= i < |s.apps| ensures s.apps[i] < s.windows { assert s.apps[i] in s.apps && s.apps[i] in s.live; }
    assert Ascending(s.apps + [s.windows]);
  }

  lemma StepAscends(s: Seat, step: Step)
    requires Registered(s) && Ascending(s.apps)
    ensures Ascending(Next(s, step).apps)
  {
    hide Arranged, Verdict, Clamped, WithoutWindow, NoneTwice, Registered, Ascending;
    if Arranges(s, step) {
      PreparedAscends(s, step);
      ArrangingStep(s, step);
      ArrangedFields(Prepared(s, step));
    }
  }

  /** In every reachable state the last application is the newest window that is
      alive and not trusted. */
  lemma {:induction false} LastIsNewest(size: Size, start: int, run: seq<Step>)
    requires Happens(Taken(size, start), run)
    ensures var s := After(Taken(size, start), run);
      && Ascending(s.apps)
      && (forall w :: w in s.live && s.trusted != Some(w) <==> w in s.apps)
      && (s.apps != [] ==> forall w <- s.live :: s.trusted != Some(w) ==> w <= Last(s.apps))
    decreases |run|
  {
    hide Next, Possible, FollowsPolicy;
    RunsFollowPolicy(size, start, run);
    var s := After(Taken(size, start), run);
    if run != [] {
      hide Registered;
      var before := run[..|run| - 1];
      LastIsNewest(size, start, before);
      RunsFollowPolicy(size, start, before);
      StepAscends(After(Taken(size, start), before), run[|run| - 1]);
    }
    NewestIsLast(s);
  }

  lemma NewestIsLast(s: Seat)
    requires Registered(s) && Ascending(s.apps)
    ensures forall w :: w in s.live && s.trusted != Some(w) <==> w in s.apps
    ensures s.apps != [] ==> forall w <- s.live :: s.trusted != Some(w) ==> w <= Last(s.apps)
  {
    forall w | w in s.apps ensures w <= Last(s.apps) {
      var i :| 0 <= i < |s.apps| && s.apps[i] == w;
    }
  }

  /** The trusted surface has the whole screen unless the last thing asked by the one
      then trusted was not to. */
  predicate FullByRequest(s: Seat, run: seq<Step>)
    decreases |run|
  {
    if run == [] then true
    else
      var before, step := run[..|run| - 1], run[|run| - 1];
      if step.Fullscreen? && After(s, before).trusted == Some(step.window) then true
      else if step.Unfullscreen? && After(s, before).trusted == Some(step.window) then false
      else FullByRequest(s, before)
  }

  lemma StepFills(s: Seat, step: Step)
    ensures Next(s, step).trustedFull ==
            if step.Fullscreen? && s.trusted == Some(step.window) then true
            else if step.Unfullscreen? && s.trusted == Some(step.window) then false
            else s.trustedFull
  {
    hide Arranged, Verdict, Clamped, WithoutWindow;
    if Arranges(s, step) {
      ArrangingStep(s, step);
      ArrangedFields(Prepared(s, step));
    }
  }

  lemma {:induction false} FullExactlyByRequest(s: Seat, run: seq<Step>)
    requires s.trustedFull
    ensures After(s, run).trustedFull <==> FullByRequest(s, run)
    decreases |run|
  {
    hide Next;
    if run != [] {
      FullExactlyByRequest(s, run[..|run| - 1]);
      StepFills(After(s, run[..|run| - 1]), run[|run| - 1]);
    }
  }

  /** It has the whole screen to begin with. */
  lemma FullAtFirst(size: Size, start: int, run: seq<Step>)
    ensures After(Taken(size, start), run).trustedFull <==> FullByRequest(Taken(size, start), run)
  {
    FullExactlyByRequest(Taken(size, start), run);
  }

  // ── What is mapped

  /** Without a trusted surface not even a window already gone stays mapped. */
  lemma {:induction false} NothingMappedWithoutTrust(size: Size, start: int, run: seq<Step>)
    requires Happens(Taken(size, start), run)
    ensures var s := After(Taken(size, start), run); s.trusted.None? ==> s.space == map[]
    decreases |run|
  {
    hide Next, Possible, Arranges;
    if run == [] {
      NothingMapped(size, start);
    } else {
      var before := run[..|run| - 1];
      NothingMappedWithoutTrust(size, start, before);
      StepUnmaps(After(Taken(size, start), before), run[|run| - 1]);
    }
  }

  lemma NothingMapped(size: Size, start: int)
    ensures Taken(size, start).space == map[]
  {
  }

  lemma StepUnmaps(s: Seat, step: Step)
    requires Possible(s, step) && (s.trusted.None? ==> s.space == map[])
    ensures Next(s, step).trusted.None? ==> Next(s, step).space == map[]
  {
    hide Arranged, Verdict, Clamped, WithoutWindow;
    if Arranges(s, step) {
      ArrangingStep(s, step);
      ArrangedUnmaps(Prepared(s, step));
    }
  }

  lemma ArrangedUnmaps(s: Seat)
    ensures Arranged(s).trusted.None? ==> Arranged(s).space == map[]
  {
    hide BarOf;
  }

  /** A refresh unmaps the windows that are gone, and no other: a press after it
      reaches only live ones. */
  lemma RefreshDropsTheGone(s: Seat, now: int, grabbed: bool, hit: Option<Id>)
    ensures var t := Next(s, Refresh);
      && (forall w :: w in t.space <==> w in s.space && w in s.live)
      && (forall w <- t.space :: t.space[w] == s.space[w])
      && t == s.(space := t.space)
      && (hit.Some? && Possible(t, Touched(Press(grabbed, hit), now)) ==> hit.value in t.live)
  {
  }

  // ── How long the session counts

  /** When the person last did something. */
  function LastTouch(start: int, run: seq<Step>): int
    decreases |run|
  {
    if run == [] then start
    else if run[|run| - 1].Touched? then run[|run| - 1].now
    else LastTouch(start, run[..|run| - 1])
  }

  /** What putting windows in their places leaves alone. */
  lemma ArrangingLeaves(s: Seat, step: Step)
    requires Arranges(s, step)
    ensures var t := Next(s, step);
      t.lastInput == s.lastInput && t.pointer == s.pointer && t.commits == s.commits && t.redraws == s.redraws + 1
  {
    hide Arranged, Next, Verdict, WithoutWindow;
    ArrangingStep(s, step);
    ArrangedLeaves(Prepared(s, step));
  }

  lemma ArrangedLeaves(s: Seat)
    ensures var t := Arranged(s);
      t.lastInput == s.lastInput && t.pointer == s.pointer && t.commits == s.commits && t.redraws == s.redraws + 1
  {
    hide BarOf;
  }

  lemma StepTouches(s: Seat, step: Step)
    ensures Next(s, step).lastInput == if step.Touched? then step.now else s.lastInput
  {
    hide Arranged, Verdict, Clamped;
    if Arranges(s, step) { ArrangingLeaves(s, step); }
  }

  lemma {:induction false} TouchesAreRemembered(size: Size, start: int, run: seq<Step>)
    ensures After(Taken(size, start), run).lastInput == LastTouch(start, run)
    decreases |run|
  {
    hide Next;
    if run != [] {
      TouchesAreRemembered(size, start, run[..|run| - 1]);
      StepTouches(After(Taken(size, start), run[..|run| - 1]), run[|run| - 1]);
    }
  }

  /** The answer at `i` is the last, and says that a session is active in which the
      person had not been idle for the seconds it gives, if it gives any. */
  predicate LiveSince(start: int, run: seq<Step>, i: nat)
    requires i < |run|
  {
    && run[i].Session? && run[i].answer.Active?
    && (run[i].answer.idleLockSecs == 0
        || run[i].now - LastTouch(start, run[..i]) < run[i].answer.idleLockSecs * 1_000_000_000)
    && forall j :: i < j < |run| ==> !run[j].Session?
  }

  lemma VerdictMeans(answer: Answer, touched: int, now: int)
    ensures Verdict(answer, touched, now) <==>
            answer.Active? && (answer.idleLockSecs == 0 || now - touched < answer.idleLockSecs * 1_000_000_000)
  {
    if answer.Active? && now >= touched {
      WholeSeconds(now - touched, answer.idleLockSecs);
    }
  }

  lemma WholeSeconds(d: nat, k: nat)
    ensures d / 1_000_000_000 >= k <==> d >= k * 1_000_000_000
  {
  }

  /** The session counts as active exactly when the last answer said so and the
      person had not been idle that long. */
  lemma {:induction false} SessionIsLiveExactly(size: Size, start: int, run: seq<Step>)
    ensures After(Taken(size, start), run).sessionActive <==> exists i :: 0 <= i < |run| && LiveSince(start, run, i)
    decreases |run|
  {
    hide Next, LastTouch, Verdict;
    if run != [] {
      var n := |run| - 1;
      var before, step := run[..n], run[n];
      var was := After(Taken(size, start), before);
      SessionIsLiveExactly(size, start, before);
      StepSetsSession(was, step);
      TouchesAreRemembered(size, start, before);
      if step.Session? {
        VerdictMeans(step.answer, was.lastInput, step.now);
        assert LiveSince(start, run, n) <==> Verdict(step.answer, was.lastInput, step.now);
      } else {
        forall i | 0 <= i < n ensures LiveSince(start, run, i) <==> LiveSince(start, before, i) {
          assert before[..i] == run[..i];
        }
      }
    }
  }

  // ── The keyboard

  /** Who has the keyboard when windows are put in their places. */
  function KeyboardFor(s: Seat): Option<Id> {
    if s.trusted.None? then None
    else if s.trustedFull || !s.sessionActive || s.apps == [] then s.trusted
    else Some(s.apps[|s.apps| - 1])
  }

  /** The last press that took the keyboard since windows were last put in their
      places. */
  function LastPress(s: Seat, run: seq<Step>): Option<Id>
    decreases |run|
  {
    if run == [] then None
    else
      var before, step := run[..|run| - 1], run[|run| - 1];
      if Focuses(step) then step.input.hit
      else if Arranges(After(s, before), step) then None
      else LastPress(s, before)
  }

  lemma ArrangedFocus(s: Seat)
    ensures Arranged(s).focus == KeyboardFor(Arranged(s))
  {
    hide BarOf;
  }

  lemma StepFocuses(s: Seat, step: Step)
    requires Possible(s, step)
    ensures var t := Next(s, step);
      if Focuses(step) then t.focus == step.input.hit && KeyboardFor(t) == KeyboardFor(s)
      else if Arranges(s, step) then t.focus == KeyboardFor(t)
      else t.focus == s.focus && KeyboardFor(t) == KeyboardFor(s)
  {
    hide Arranged, Verdict, Clamped, WithoutWindow, Possible;
    if Arranges(s, step) {
      ArrangingStep(s, step);
      ArrangedFocus(Prepared(s, step));
    }
  }

  /** In every reachable state the keyboard is with the window last pressed, and
      otherwise with the one the policy gives it to: the newest application, the
      trusted surface when it is alone, or none. */
  lemma {:induction false} KeyboardExactly(size: Size, start: int, run: seq<Step>)
    requires Happens(Taken(size, start), run)
    ensures var s := After(Taken(size, start), run); var pressed := LastPress(Taken(size, start), run);
            s.focus == if pressed.Some? then pressed else KeyboardFor(s)
    decreases |run|
  {
    hide Next, Possible, KeyboardFor, Focuses, Arranges;
    if run == [] {
      NobodyYet(size, start);
    } else {
      var before, step := run[..|run| - 1], run[|run| - 1];
      KeyboardExactly(size, start, before);
      StepFocuses(After(Taken(size, start), before), step);
      FocusesSomebody(step);
    }
  }

  lemma FocusesSomebody(step: Step)
    ensures Focuses(step) ==> step.input.hit.Some?
  {
  }

  lemma NobodyYet(size: Size, start: int)
    ensures Taken(size, start).focus == KeyboardFor(Taken(size, start))
  {
  }

  // ── The pointer

  predicate Inside(size: Size, p: (real, real)) {
    0.0 <= p.0 <= (size.w - 1) as real && 0.0 <= p.1 <= (size.h - 1) as real
  }

  /** A device that gives places gives them on the screen. */
  predicate Aims(size: Size, step: Step) {
    step.Touched? && step.input.Absolute? ==> Inside(size, (step.input.x, step.input.y))
  }

  /** The nearest place to `v` on a side of the screen. */
  lemma ClampedIsNearest(v: real, max: real, other: real)
    requires 0.0 <= max && 0.0 <= other <= max
    ensures var c := Clamped(v, max);
            0.0 <= c <= max && (if c < v then v - c else c - v) <= (if other < v then v - other else other - v)
  {
  }

  /** In every run the pointer stays on the screen, and a motion that would leave it
      there is made in full. */
  lemma {:induction false} PointerStaysInside(size: Size, start: int, run: seq<Step>)
    requires size.w > 0 && size.h > 0 && forall step <- run :: Aims(size, step)
    ensures Inside(size, After(Taken(size, start), run).pointer)
    decreases |run|
  {
    hide Next;
    if run != [] {
      var before, step := run[..|run| - 1], run[|run| - 1];
      assert step in run && forall e <- before :: e in run;
      PointerStaysInside(size, start, before);
      SizeStays(size, start, before);
      StepPoints(After(Taken(size, start), before), step);
    }
  }

  lemma StepPoints(s: Seat, step: Step)
    requires s.size.w > 0 && s.size.h > 0 && Inside(s.size, s.pointer) && Aims(s.size, step)
    ensures Inside(s.size, Next(s, step).pointer)
    ensures !step.Touched? ==> Next(s, step).pointer == s.pointer
    ensures step.Touched? && step.input.Motion? ==>
              var to := (s.pointer.0 + step.input.dx, s.pointer.1 + step.input.dy);
              Inside(s.size, to) ==> Next(s, step).pointer == to
    ensures step.Touched? && step.input.Absolute? ==> Next(s, step).pointer == (step.input.x, step.input.y)
  {
    hide Arranged, Verdict;
    if Arranges(s, step) { ArrangingLeaves(s, step); }
  }

  // ── What asks for a frame

  /** New contents, a moved pointer and windows put in their places each ask for a
      frame; nothing else does. */
  lemma FramesAreAskedFor(s: Seat, step: Step)
    ensures var t := Next(s, step);
      && t.redraws == s.redraws + (if step.Commit? || Arranges(s, step)
                                      || (step.Touched? && (step.input.Motion? || step.input.Absolute?)) then 1 else 0)
      && t.commits == s.commits + (if step.Commit? then 1 else 0)
  {
    hide Arranged, Verdict, Clamped;
    if Arranges(s, step) { ArrangingLeaves(s, step); }
  }
}
