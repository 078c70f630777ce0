/** Where a member may be sent back to after signing in: only a route of this
    Workspace, told by its own catalogue. */
module ReturnTarget {
  import opened Text

  const SLASH: char := '/'

  predicate IsControl(c: char) { c < ' ' || 0x7f as char <= c <= 0x9f as char }

  predicate Refused(c: char) { c == '\\' || c == ':' || c == '@' || IsControl(c) }

  predicate Clean(s: string) { forall i :: 0 <= i < |s| ==> !Refused(s[i]) }

  predicate EndsPath(c: char) { c == '?' || c == '#' }

  /** What comes before the query and the fragment. */
  function PathOf(s: string): string {
    if s == [] || EndsPath(s[0]) then [] else [s[0]] + PathOf(s[1..])
  }

  function TrimLeft(s: string): string {
    if s != [] && s[0] == SLASH then TrimLeft(s[1..]) else s
  }

  function TrimRight(s: string): string {
    if s != [] && s[|s| - 1] == SLASH then TrimRight(s[..|s| - 1]) else s
  }

  function Trim(s: string): string { TrimRight(TrimLeft(s)) }

  predicate IsParameter(segment: string) {
    segment != [] && segment[0] == '{' && segment[|segment| - 1] == '}'
  }

  predicate Fits(segment: string, value: string) {
    if IsParameter(segment) then value != [] else segment == value
  }

  /** Each value is its literal segment, or something for a parameter. */
  predicate InstanceOf(segments: seq<string>, values: seq<string>) {
    |segments| == |values| && forall i :: 0 <= i < |segments| ==> Fits(segments[i], values[i])
  }

  predicate Matches(route: string, path: string) {
    InstanceOf(Split(Trim(route), SLASH), Split(Trim(path), SLASH))
  }

  function SafeReturnTarget(target: string, catalogue: seq<string>): Option<string> {
    if target == [] || target[0] != SLASH then None
    else if |target| > 1 && (target[1] == SLASH || target[1] == '\\') then None
    else if '\\' in target then None
    else if ':' in target || '@' in target then None
    else if exists c <- target :: IsControl(c) then None
    else if exists route <- catalogue :: Matches(route, PathOf(target)) then Some(target)
    else None
  }

  // ── Both directions

  /** What is accepted: a path from the root, with nothing refused in it, whose
      segments are an instance of a route. */
  ghost predicate Internal(target: string, catalogue: seq<string>) {
    && target != [] && target[0] == SLASH && Clean(target)
    && (|target| > 1 ==> target[1] != SLASH)
    && exists route <- catalogue :: RouteInstance(route, Trim(PathOf(target)))
  }

  ghost predicate RouteInstance(route: string, path: string) {
    exists values: seq<string> ::
      && InstanceOf(Split(Trim(route), SLASH), values)
      && (forall v <- values :: Without(v, SLASH))
      && values != [] && path == Join(values, SLASH)
  }

  lemma MatchIsInstance(route: string, path: string)
    ensures Matches(route, path) <==> RouteInstance(route, Trim(path))
  {
    hide Trim, InstanceOf, Split, Join;
    var trimmed := Trim(path);
    JoinUndoesSplit(trimmed, SLASH);
    if values: seq<string> :| InstanceOf(Split(Trim(route), SLASH), values) && (forall v <- values :: Without(v, SLASH))
                              && values != [] && trimmed == Join(values, SLASH) {
      SplitUndoesJoin(values, SLASH);
    }
  }

  /** A target is returned, unchanged, exactly when it is internal. */
  lemma AcceptedExactlyInternal(target: string, catalogue: seq<string>)
    ensures SafeReturnTarget(target, catalogue) == Some(target) <==> Internal(target, catalogue)
    ensures SafeReturnTarget(target, catalogue) != None ==> SafeReturnTarget(target, catalogue) == Some(target)
  {
    hide Matches, PathOf, RouteInstance, Trim;
    forall route <- catalogue ensures Matches(route, PathOf(target)) <==> RouteInstance(route, Trim(PathOf(target))) {
      MatchIsInstance(route, PathOf(target));
    }
    CleanMeans(target);
  }

  lemma CleanMeans(s: string)
    ensures Clean(s) <==> '\\' !in s && ':' !in s && '@' !in s && !exists c <- s :: IsControl(c)
  {
    if '\\' !in s && ':' !in s && '@' !in s && !(exists c <- s :: IsControl(c)) {
      forall i | 0 <= i < |s| ensures !Refused(s[i]) {
        assert s[i] in s;
      }
    }
  }

  // ── Every instance that the router would build is accepted

  /** A route as the catalogue writes it: `/` and its segments. */
  predicate GoodRoute(segments: seq<string>) {
    && segments != []
    && (forall s <- segments :: Without(s, SLASH))
    && (segments == [""] || (segments[0] != [] && segments[|segments| - 1] != []))
  }

  predicate PathPart(s: string) {
    Clean(s) && forall i :: 0 <= i < |s| ==> s[i] != SLASH && !EndsPath(s[i])
  }

  predicate Query(s: string) { Clean(s) && (s != [] ==> EndsPath(s[0])) }

  lemma TrimRooted(segments: seq<string>)
    requires GoodRoute(segments)
    ensures Trim("/" + Join(segments, SLASH)) == Join(segments, SLASH)
  {
    hide Join;
    var inner := Join(segments, SLASH);
    JoinEnds(segments, SLASH);
    assert ("/" + inner)[1..] == inner;
    if segments == [""] {
      OnlyOne("");
    } else {
      assert segments[0][0] != SLASH by { assert segments[0] in segments; }
      assert segments[|segments| - 1] in segments;
    }
    assert TrimLeft("/" + inner) == TrimLeft(inner) == inner;
  }

  lemma OnlyOne(s: string)
    ensures Join([s], SLASH) == s
  {
  }

  lemma {:induction false} PathOfPath(path: string, query: string)
    requires Query(query) && forall i :: 0 <= i < |path| ==> !EndsPath(path[i])
    ensures PathOf(path + query) == path
  {
    if path == [] {
      assert path + query == query;
    } else {
      assert (path + query)[0] == path[0] && (path + query)[1..] == path[1..] + query;
      PathOfPath(path[1..], query);
    }
  }

  lemma {:induction false} JoinIsPlain(values: seq<string>)
    requires values != [] && forall v <- values :: PathPart(v)
    ensures Clean(Join(values, SLASH))
    ensures forall i :: 0 <= i < |Join(values, SLASH)| ==> !EndsPath(Join(values, SLASH)[i])
  {
    assert values[0] in values;
    if |values| > 1 {
      assert forall v <- values[1..] :: v in values;
      JoinIsPlain(values[1..]);
    }
  }

  lemma InstanceIsGood(segments: seq<string>, values: seq<string>)
    requires GoodRoute(segments) && InstanceOf(segments, values) && forall v <- values :: PathPart(v)
    ensures GoodRoute(values)
  {
    assert Fits(segments[0], values[0]) && Fits(segments[|segments| - 1], values[|values| - 1]);
  }

  /** Every instance of a catalogue route, with something for each parameter and
      a query or a fragment, all free of what is refused, is accepted unchanged. */
  lemma EveryInstanceIsAccepted(segments: seq<string>, values: seq<string>, query: string, catalogue: seq<string>)
    requires GoodRoute(segments) && "/" + Join(segments, SLASH) in catalogue
    requires InstanceOf(segments, values) && (forall v <- values :: PathPart(v)) && Query(query)
    ensures values != []
    ensures var target := "/" + Join(values, SLASH) + query;
            SafeReturnTarget(target, catalogue) == Some(target)
  {
    hide Join, Split, Trim, InstanceOf, PathOf;
    InstanceIsGood(segments, values);
    var route, path := "/" + Join(segments, SLASH), "/" + Join(values, SLASH);
    var target := path + query;
    TrimRooted(segments);
    TrimRooted(values);
    JoinIsPlain(values);
    PathOfPath(path, query);
    SplitUndoesJoin(segments, SLASH);
    assert RouteInstance(route, Trim(PathOf(target)));
    SecondIsNoSlash(values, query);
    AcceptedExactlyInternal(target, catalogue);
  }

  lemma SecondIsNoSlash(values: seq<string>, query: string)
    requires GoodRoute(values) && Query(query)
    ensures var target := "/" + Join(values, SLASH) + query; |target| > 1 ==> target[1] != SLASH
  {
    hide Join;
    JoinEnds(values, SLASH);
    var inner := Join(values, SLASH);
    var target := "/" + inner + query;
    if values == [""] {
      OnlyOne("");
      assert target == "/" + query;
    } else {
      assert values[0] in values && target[1] == inner[0] == values[0][0];
    }
  }

  // ── What a browser may take it for

  /** The forms of a reference (sections 4.1 and 4.2 of RFC 3986). */
  datatype Reference = WithScheme | NetworkPath | AbsolutePath | RelativePath

  /** A scheme is a colon before any slash, question mark or number sign. */
  predicate HasScheme(s: string) {
    exists i :: 0 <= i < |s| && s[i] == ':' && forall j :: 0 <= j < i ==> s[j] != SLASH && !EndsPath(s[j])
  }

  /** `s` as some browsers read it, with backslashes for slashes. */
  function Slashed(s: string): string {
    seq(|s|, i requires 0 <= i < |s| => if s[i] == '\\' then SLASH else s[i])
  }

  function FormOf(s: string): Reference {
    if HasScheme(s) then WithScheme
    else if |s| > 1 && s[0] == SLASH && s[1] == SLASH then NetworkPath
    else if s != [] && s[0] == SLASH then AbsolutePath
    else RelativePath
  }

  /** No accepted target leaves this site: it is an absolute-path reference, also
      for a browser that takes backslashes for slashes. */
  lemma AcceptedStaysHere(target: string, catalogue: seq<string>)
    requires SafeReturnTarget(target, catalogue).Some?
    ensures FormOf(target) == AbsolutePath && FormOf(Slashed(target)) == AbsolutePath
  {
    hide Matches, PathOf;
    CleanMeans(target);
    assert Slashed(target) == target;
  }

  // ── What a route lets through

  /** A segment in braces stands for a value. */
  predicate InBraces(segment: string) { |segment| >= 2 && segment[0] == '{' && segment[|segment| - 1] == '}' }

  function Places(segments: seq<string>): nat {
    if segments == [] then 0 else (if InBraces(segments[0]) then 1 else 0) + Places(segments[1..])
  }

  /** The segments with the values in the places of those in braces, in order. */
  function Built(segments: seq<string>, args: seq<string>): seq<string>
    requires |args| == Places(segments)
  {
    if segments == [] then []
    else if InBraces(segments[0]) then [args[0]] + Built(segments[1..], args[1..])
    else [segments[0]] + Built(segments[1..], args)
  }

  /** The values that were put in. */
  function ArgsOf(segments: seq<string>, values: seq<string>): seq<string>
    requires |segments| == |values|
  {
    if segments == [] then []
    else (if InBraces(segments[0]) then [values[0]] else []) + ArgsOf(segments[1..], values[1..])
  }

  ghost predicate BuiltFrom(segments: seq<string>, args: seq<string>, values: seq<string>) {
    |args| == Places(segments) && "" !in args && values == Built(segments, args)
  }

  lemma {:induction false} InstanceIsBuilt(segments: seq<string>, values: seq<string>)
    requires InstanceOf(segments, values)
    ensures BuiltFrom(segments, ArgsOf(segments, values), values)
  {
    if segments != [] {
      forall i | 0 <= i < |segments[1..]| ensures Fits(segments[1..][i], values[1..][i]) {
        assert Fits(segments[i + 1], values[i + 1]);
      }
      InstanceIsBuilt(segments[1..], values[1..]);
      assert Fits(segments[0], values[0]);
      var args, rest := ArgsOf(segments, values), ArgsOf(segments[1..], values[1..]);
      assert args[if InBraces(segments[0]) then 1 else 0..] == rest;
      assert values == [values[0]] + values[1..];
    }
  }

  lemma {:induction false} BuiltIsInstance(segments: seq<string>, args: seq<string>, values: seq<string>)
    requires BuiltFrom(segments, args, values)
    ensures InstanceOf(segments, values)
  {
    if segments != [] {
      var rest := if InBraces(segments[0]) then args[1..] else args;
      assert "" !in rest by { assert forall a <- rest :: a in args; }
      BuiltIsInstance(segments[1..], rest, Built(segments[1..], rest));
      forall i | 0 <= i < |segments| ensures Fits(segments[i], values[i]) {
        if i > 0 { assert Fits(segments[1..][i - 1], Built(segments[1..], rest)[i - 1]); }
        else if InBraces(segments[0]) { assert args[0] in args; }
      }
    }
  }

  ghost predicate BuiltSomehow(segments: seq<string>, values: seq<string>) {
    exists args: seq<string> :: BuiltFrom(segments, args, values)
  }

  lemma InstanceIsBuiltSomehow(segments: seq<string>, values: seq<string>)
    ensures InstanceOf(segments, values) <==> BuiltSomehow(segments, values)
  {
    hide BuiltFrom, Fits;
    if InstanceOf(segments, values) {
      InstanceIsBuilt(segments, values);
    }
    if args: seq<string> :| BuiltFrom(segments, args, values) {
      BuiltIsInstance(segments, args, values);
    }
  }

  /** A path fits a route exactly when, without the slashes around it, it is the
      route with something put in each place in braces: every other segment is the
      route's own. */
  lemma MatchesWhatIsBuilt(route: string, path: string)
    ensures Matches(route, path) <==> BuiltSomehow(Split(Trim(route), SLASH), Split(Trim(path), SLASH))
  {
    hide Trim, Split, InstanceOf, BuiltSomehow;
    InstanceIsBuiltSomehow(Split(Trim(route), SLASH), Split(Trim(path), SLASH));
  }

  /** In particular a route without braces lets only itself through. */
  lemma PlainRouteIsItself(route: string, path: string)
    requires forall i :: 0 <= i < |route| ==> route[i] != '{'
    ensures Matches(route, path) <==> Trim(path) == Trim(route)
  {
    hide Trim, Split, InstanceOf;
    var segments := Split(Trim(route), SLASH);
    JoinUndoesSplit(Trim(route), SLASH);
    JoinUndoesSplit(Trim(path), SLASH);
    TrimKeepsPlain(route);
    SplitKeepsPlain(Trim(route));
    NoPlaces(segments);
    MatchesWhatIsBuilt(route, path);
    if Matches(route, path) {
      var args: seq<string> :| BuiltFrom(segments, args, Split(Trim(path), SLASH));
    }
    if Trim(path) == Trim(route) { assert BuiltFrom(segments, [], Split(Trim(path), SLASH)); }
  }

  predicate NoBraces(s: string) { forall i :: 0 <= i < |s| ==> s[i] != '{' }

  lemma {:induction false} LeftKeepsPlain(s: string)
    requires NoBraces(s)
    ensures NoBraces(TrimLeft(s))
  {
    if s != [] && s[0] == SLASH { LeftKeepsPlain(s[1..]); }
  }

  lemma {:induction false} RightKeepsPlain(s: string)
    requires NoBraces(s)
    ensures NoBraces(TrimRight(s))
  {
    if s != [] && s[|s| - 1] == SLASH { RightKeepsPlain(s[..|s| - 1]); }
  }

  lemma TrimKeepsPlain(s: string)
    requires NoBraces(s)
    ensures NoBraces(Trim(s))
  {
    LeftKeepsPlain(s);
    RightKeepsPlain(TrimLeft(s));
  }

  lemma {:induction false} SplitKeepsPlain(s: string)
    requires NoBraces(s)
    ensures forall part <- Split(s, SLASH) :: NoBraces(part)
    decreases |s|
  {
    var n := Before(s, SLASH);
    if n < |s| { SplitKeepsPlain(s[n + 1..]); }
  }

  lemma {:induction false} NoPlaces(segments: seq<string>)
    requires forall s <- segments :: NoBraces(s)
    ensures Places(segments) == 0 && Built(segments, []) == segments
  {
    if segments != [] {
      assert segments[0] in segments && forall s <- segments[1..] :: s in segments;
      NoPlaces(segments[1..]);
    }
  }

  /** So many slashes. */
  function Slashes(n: nat): string { if n == 0 then [] else [SLASH] + Slashes(n - 1) }

  lemma {:induction false} LeftDrops(n: nat, s: string)
    requires s != [] ==> s[0] != SLASH
    ensures TrimLeft(Slashes(n) + s) == s
  {
    if n == 0 {
      assert Slashes(0) + s == s;
    } else {
      assert (Slashes(n) + s)[1..] == Slashes(n - 1) + s;
      LeftDrops(n - 1, s);
    }
  }

  lemma {:induction false} SlashLast(n: nat)
    ensures Slashes(n) + [SLASH] == Slashes(n + 1)
  {
    if n > 0 { SlashLast(n - 1); }
  }

  lemma {:induction false} RightDrops(s: string, n: nat)
    requires s != [] ==> s[|s| - 1] != SLASH
    ensures TrimRight(s + Slashes(n)) == s
  {
    if n == 0 {
      assert s + Slashes(0) == s;
    } else {
      SlashLast(n - 1);
      var all := s + Slashes(n);
      assert all == s + Slashes(n - 1) + [SLASH] && all[..|all| - 1] == s + Slashes(n - 1);
      RightDrops(s, n - 1);
    }
  }

  /** Slashes around a path do not count, however many. */
  lemma SlashesDoNotCount(left: nat, inner: string, right: nat, route: string)
    requires inner != [] && inner[0] != SLASH && inner[|inner| - 1] != SLASH
    ensures Trim(Slashes(left) + inner + Slashes(right)) == inner
    ensures Matches(route, Slashes(left) + inner + Slashes(right)) <==> Matches(route, inner)
  {
    var all := Slashes(left) + inner + Slashes(right);
    assert all == Slashes(left) + (inner + Slashes(right));
    LeftDrops(left, inner + Slashes(right));
    RightDrops(inner, right);
    LeftDrops(0, inner);
    RightDrops(inner, 0);
    assert Slashes(0) + inner == inner && inner + Slashes(0) == inner;
  }

  // ── The characters

  /** One slash first, and no control character, backslash, colon or at sign. */
  predicate PlainTarget(s: string) {
    && s != [] && s[0] == '/' && (|s| > 1 ==> s[1] != '/')
    && forall i :: 0 <= i < |s| ==>
         && 32 <= s[i] as int && !(127 <= s[i] as int <= 159)
         && s[i] != '\\' && s[i] != ':' && s[i] != '@'
  }

  lemma CleanIsPlain(s: string)
    ensures PlainTarget(s) <==> s != [] && s[0] == SLASH && (|s| > 1 ==> s[1] != SLASH) && Clean(s)
  {
    assert forall c: char :: Refused(c) <==>
      c == '\\' || c == ':' || c == '@' || (c as int) < 32 || 127 <= c as int <= 159;
  }

  /** A target is accepted exactly when it is plain and its path is built from a route
      of the catalogue. */
  lemma AcceptedExactlyBuilt(target: string, catalogue: seq<string>)
    ensures SafeReturnTarget(target, catalogue).Some? <==>
            && PlainTarget(target)
            && exists route <- catalogue :: BuiltSomehow(Split(Trim(route), SLASH), Split(Trim(PathOf(target)), SLASH))
  {
    hide Matches, PathOf, BuiltSomehow, Split, Trim, PlainTarget;
    CleanIsPlain(target);
    CleanMeans(target);
    forall route <- catalogue
      ensures Matches(route, PathOf(target)) <==>
              BuiltSomehow(Split(Trim(route), SLASH), Split(Trim(PathOf(target)), SLASH))
    {
      MatchesWhatIsBuilt(route, PathOf(target));
    }
  }

  /** The path ends at the first question mark or number sign. */
  lemma {:induction false} PathEnds(path: string, rest: string)
    requires '?' !in path && '#' !in path
    requires rest == "" || rest[0] == '?' || rest[0] == '#'
    ensures PathOf(path + rest) == path
  {
    hide PathOf;
    if path == [] {
      assert path + rest == rest;
      PathStops(rest);
    } else {
      var s := path + rest;
      assert path[0] in path && forall c <- path[1..] :: c in path;
      assert s[0] == path[0] && s[1..] == path[1..] + rest;
      PathEnds(path[1..], rest);
      PathGoesOn(s);
      assert path == [path[0]] + path[1..];
    }
  }

  lemma PathStops(rest: string)
    requires rest == "" || rest[0] == '?' || rest[0] == '#'
    ensures PathOf(rest) == []
  {
  }

  lemma PathGoesOn(s: string)
    requires s != [] && s[0] != '?' && s[0] != '#'
    ensures PathOf(s) == [s[0]] + PathOf(s[1..])
  {
  }
}
