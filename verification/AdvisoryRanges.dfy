/** Ranges as advisories write them, and which versions they hold: said of versions,
    not of their keys. */
module AdvisoryRanges {
  import opened Text
  import opened SemVer
  import opened AdvisoryGate

  // ── One constraint

  datatype Sign = NoSign | OneEqual | TwoEqual | Less | LessEqual | Greater | GreaterEqual

  function SignText(sign: Sign): string {
    match sign
    case NoSign => ""
    case OneEqual => "="
    case TwoEqual => "=="
    case Less => "<"
    case LessEqual => "<="
    case Greater => ">"
    case GreaterEqual => ">="
  }

  /** The same but for build metadata. */
  predicate SameRelease(a: Version, b: Version) { a.(build := None) == b.(build := None) }

  /** What a sign says of two versions. */
  ghost predicate Meets(a: Version, sign: Sign, b: Version) {
    match sign
    case NoSign => SameRelease(a, b)
    case OneEqual => SameRelease(a, b)
    case TwoEqual => SameRelease(a, b)
    case Less => Precedes(a, b)
    case LessEqual => Precedes(a, b) || SameRelease(a, b)
    case Greater => Precedes(b, a)
    case GreaterEqual => Precedes(b, a) || SameRelease(a, b)
  }

  /** A constraint as it is written: white space, the sign, white space, the
      version, white space. */
  datatype Bound = Bound(left: string, sign: Sign, gap: string, version: Version, right: string)

  function BoundText(b: Bound): string { b.left + (SignText(b.sign) + (b.gap + Print(b.version))) + b.right }

  /** Without a sign all white space before the version is at the left; and two equal
      signs have some after them. */
  predicate GoodBound(b: Bound) {
    && WellFormed(b.version) && AllSpace(b.left) && AllSpace(b.gap) && AllSpace(b.right)
    && (b.sign == NoSign ==> b.gap == [])
    && (b.sign == TwoEqual ==> b.gap != [])
  }

  // What a version prints as has no white space, no comma and no sign in it.

  predicate Foreign(c: char) { !IdentifierChar(c) && c != '.' && c != '+' && c != '-' }

  lemma IdentifierIsPlain(id: Identifier, c: char)
    requires GoodIdentifier(id) && Foreign(c)
    ensures Without(IdentifierText(id), c)
  {
    hide Decimal;
    match id
    case Numeric(n) => NumberIsPlain(Decimal(n), c);
    case Alphanumeric(text) =>
  }

  lemma {:induction false} IdentifiersArePlain(pre: seq<Identifier>, c: char)
    requires (forall id <- pre :: GoodIdentifier(id)) && Foreign(c)
    ensures forall t <- IdentifierTexts(pre) :: Without(t, c)
  {
    hide GoodIdentifier, IdentifierText, Without, Foreign;
    if pre != [] {
      assert pre[0] in pre && forall id <- pre[1..] :: id in pre;
      IdentifierIsPlain(pre[0], c);
      IdentifiersArePlain(pre[1..], c);
    }
  }

  lemma CoreIsPlain(v: Version, c: char)
    requires Foreign(c)
    ensures Without(Join(Core(v), '.'), c)
  {
    hide Join, Decimal;
    NumberIsPlain(Decimal(v.major), c);
    NumberIsPlain(Decimal(v.minor), c);
    NumberIsPlain(Decimal(v.patch), c);
    JoinWithout(Core(v), c, '.');
  }

  lemma PrintIsPlain(v: Version, c: char)
    requires WellFormed(v) && Foreign(c)
    ensures Without(Print(v), c)
  {
    CoreIsPlain(v, c);
    GoodIdentifiers(v);
    IdentifiersArePlain(v.pre, c);
    hide Join, Core, IdentifierTexts;
    if v.pre != [] { JoinWithout(IdentifierTexts(v.pre), c, '.'); }
  }

  lemma SpaceIsForeign(c: char)
    requires IsSpace(c) || c == ',' || c == '<' || c == '>' || c == '='
    ensures Foreign(c)
  {
  }

  /** Solid, and not starting as a sign. */
  predicate Bare(p: string) { Solid(p) && p[0] != '<' && p[0] != '>' && p[0] != '=' }

  lemma PrintIsBare(v: Version)
    requires WellFormed(v)
    ensures Bare(Print(v)) && Without(Print(v), ',')
  {
    hide Print, WellFormed, Foreign;
    PrintIsTrimmed(v);
    var p := Print(v);
    forall i | 0 <= i < |p| ensures !IsSpace(p[i]) && p[i] != '<' && p[i] != '>' && p[i] != '=' && p[i] != ',' {
      if IsSpace(p[i]) || p[i] == ',' || p[i] == '<' || p[i] == '>' || p[i] == '=' {
        SpaceIsForeign(p[i]);
        PrintIsPlain(v, p[i]);
        assert false;
      }
    }
  }

  // Reading the sign

  lemma SignTaken(sign: string, gap: string, p: string)
    requires AllSpace(gap) && Solid(p)
    ensures After(sign, sign + (gap + p)) == Some(p)
  {
    hide StripLeft;
    var s := sign + (gap + p);
    assert s[..|sign|] == sign && s[|sign|..] == gap + p;
    StripLeftPadded(gap, p);
  }

  lemma SignMissed(sign: string, s: string)
    requires |sign| <= |s| ==> exists i :: 0 <= i < |sign| && s[i] != sign[i]
    ensures After(sign, s) == None
  {
    if |sign| <= |s| {
      var i :| 0 <= i < |sign| && s[i] != sign[i];
      assert s[..|sign|][i] != sign[i];
    }
  }

  /** What follows the sign starts neither with a sign nor, after two equal signs, at
      once. */
  lemma Misses(s: string)
    requires s != []
    ensures s[0] != '<' ==> After("<=", s) == None && After("<", s) == None
    ensures s[0] != '>' ==> After(">=", s) == None && After(">", s) == None
    ensures s[0] != '=' ==> After("=", s) == None && After("==", s) == None
    ensures |s| > 1 && s[1] != '=' ==> After("<=", s) == None && After(">=", s) == None && After("==", s) == None
  {
    hide After;
    if s[0] != '<' { SignMissed("<=", s); SignMissed("<", s); }
    if s[0] != '>' { SignMissed(">=", s); SignMissed(">", s); }
    if s[0] != '=' { SignMissed("=", s); SignMissed("==", s); }
    if |s| > 1 && s[1] != '=' {
      assert s[1] != "<="[1] && s[1] != ">="[1] && s[1] != "=="[1];
      SignMissed("<=", s);
      SignMissed(">=", s);
      SignMissed("==", s);
    }
  }

  /** After one equal sign of two, something with white space in it is left. */
  lemma SecondEqualStays(gap: string, p: string)
    requires AllSpace(gap) && gap != []
    ensures After("=", "==" + (gap + p)) == None
  {
    var s := "==" + (gap + p);
    var rest := s[1..];
    assert rest[0] == '=' && StripLeft(rest) == rest;
    assert rest[1] == gap[0] && IsSpace(rest[1]);
  }

  function OperatorOf(sign: Sign): Operator {
    match sign
    case NoSign => Equal
    case OneEqual => Equal
    case TwoEqual => Equal
    case Less => Below
    case LessEqual => AtMost
    case Greater => Above
    case GreaterEqual => AtLeast
  }

  lemma SignIsRead(sign: Sign, gap: string, p: string)
    requires AllSpace(gap) && Bare(p) && (sign == NoSign ==> gap == []) && (sign == TwoEqual ==> gap != [])
    requires Strip(SignText(sign) + (gap + p)) == SignText(sign) + (gap + p)
    ensures ReadConstraint(SignText(sign) + (gap + p)) == Some((OperatorOf(sign), p))
  {
    hide After, Strip;
    var s := SignText(sign) + (gap + p);
    Misses(s);
    match sign
    case NoSign => assert s == p;
    case OneEqual => SignTaken("=", gap, p); FollowsSign("=", gap, p);
    case TwoEqual => SignTaken("==", gap, p); SecondEqualStays(gap, p);
    case Less => SignTaken("<", gap, p); FollowsSign("<", gap, p);
    case LessEqual => SignTaken("<=", gap, p);
    case Greater => SignTaken(">", gap, p); FollowsSign(">", gap, p);
    case GreaterEqual => SignTaken(">=", gap, p);
  }

  lemma FollowsSign(sign: string, gap: string, p: string)
    requires |sign| == 1 && AllSpace(gap) && Bare(p)
    ensures var s := sign + (gap + p); |s| > 1 && s[1] != '='
  {
    assert (gap + p)[0] == if gap == [] then p[0] else gap[0];
  }

  lemma BoundIsRead(b: Bound)
    requires GoodBound(b)
    ensures Strip(BoundText(b)) == SignText(b.sign) + (b.gap + Print(b.version)) != []
    ensures ReadConstraint(BoundText(b)) == Some((OperatorOf(b.sign), Print(b.version)))
    ensures Without(BoundText(b), ',')
  {
    hide Strip, Print, WellFormed, Bare, SignText, BoundText, ReadConstraint;
    PrintIsBare(b.version);
    BoundStrips(b);
    SignIsRead(b.sign, b.gap, Print(b.version));
    SameOnceStripped(BoundText(b), SignText(b.sign) + (b.gap + Print(b.version)));
    BoundHasNoComma(b);
  }

  lemma BoundStrips(b: Bound)
    requires GoodBound(b)
    ensures var s := SignText(b.sign) + (b.gap + Print(b.version)); Strip(BoundText(b)) == Strip(s) == s != []
  {
    hide Strip, Print, WellFormed, Solid;
    PrintIsBare(b.version);
    var p := Print(b.version);
    var s := SignText(b.sign) + (b.gap + p);
    SolidEnds(p);
    assert s[|s| - 1] == p[|p| - 1];
    assert s[0] == if b.sign == NoSign then p[0] else SignText(b.sign)[0];
    StripPadded(b.left, s, b.right);
    assert [] + s + [] == s;
    StripPadded([], s, []);
  }

  lemma BoundHasNoComma(b: Bound)
    requires GoodBound(b)
    ensures Without(BoundText(b), ',')
  {
    hide Print, WellFormed, Bare;
    PrintIsBare(b.version);
  }

  lemma SolidEnds(p: string)
    requires Bare(p)
    ensures p != [] && !IsSpace(p[0]) && !IsSpace(p[|p| - 1])
  {
  }

  lemma SameOnceStripped(a: string, b: string)
    requires Strip(a) == Strip(b)
    ensures ReadConstraint(a) == ReadConstraint(b)
  {
  }

  /** A constraint, however it is spaced, holds of a version exactly when its sign
      says so of the two versions. */
  lemma ConstraintMeansItsSign(a: Version, b: Bound)
    requires WellFormed(a) && GoodBound(b)
    ensures Satisfies(Print(a), BoundText(b)) == Ok(Meets(a, b.sign, b.version))
  {
    hide ReadConstraint, ParseVersion, Print, WellFormed, KeyLess, Precedes, BoundText;
    BoundIsRead(b);
    TextsComparePrecedence(a, b.version);
    TextsComparePrecedence(b.version, a);
  }

  /** Two equal signs at once before the version are read as one, and the rest as a
      version that cannot be read. */
  lemma TwoEqualSignsNeedSpace(a: Version, b: Version)
    requires WellFormed(a) && WellFormed(b)
    ensures Satisfies(Print(a), "==" + Print(b)).Raised?
  {
    hide Print, WellFormed, Strip, ParseVersion;
    PrintIsBare(b);
    var p := Print(b);
    var s := "==" + p;
    SolidEnds(p);
    assert [] + s + [] == s;
    StripPadded([], s, []);
    Misses(s);
    assert s[1..] == "=" + p && Solid("=" + p) && StripLeft("=" + p) == "=" + p;
    assert After("=", s) == Some("=" + p) by { assert s[..1] == "="; }
    assert ReadConstraint(s) == Some((Equal, "=" + p));
    EqualSignIsNoVersion(p);
  }

  lemma EqualSignIsNoVersion(p: string)
    requires Solid(p)
    ensures ParseVersion("=" + p).Raised?
  {
    hide Strip, Split;
    var t := "=" + p;
    assert [] + t + [] == t;
    StripPadded([], t, []);
    var s := WithoutBuild(t);
    assert s != [] && s[0] == '=';
    var core := CoreOf(s);
    assert core != [] && core[0] == '=';
    JoinUndoesSplit(core, '.');
    var parts := Split(core, '.');
    FirstOfJoined(parts);
    assert parts[0] in parts;
  }

  lemma FirstOfJoined(parts: seq<string>)
    requires parts != [] && Join(parts, '.') != [] && Join(parts, '.')[0] == '='
    ensures parts[0] == [] || parts[0][0] == '='
  {
  }

  // What is raised

  /** White space alone, or two words with no sign before them, are no constraint. */
  lemma NoConstraintIsRaised(version: string, left: string, word: string, gap: string, more: string, right: string)
    requires AllSpace(left) && AllSpace(right)
    requires (word == [] && gap == [] && more == []) || (Bare(word) && Bare(more) && AllSpace(gap) && gap != [])
    ensures var text := left + (word + (gap + more)) + right;
            Satisfies(version, text) == Raised("unreadable version constraint: " + text)
  {
    hide StripLeft, StripRight, ParseVersion, After;
    var s := word + (gap + more);
    var text := left + s + right;
    if word == [] {
      assert s == [] && text == left + right;
      BlankIsNothing(left + right);
      forall sign: string | sign != [] ensures After(sign, []) == None { SignMissed(sign, []); }
    } else {
      SolidEnds(word);
      SolidEnds(more);
      assert s[|s| - 1] == more[|more| - 1] && s[|word|] == gap[0];
      StripPadded(left, s, right);
      Misses(s);
    }
  }

  lemma BlankIsNothing(space: string)
    requires AllSpace(space)
    ensures Strip(space) == []
  {
    assert space + [] == space;
    StripLeftPadded(space, []);
  }

  /** A version that cannot be read is raised as it is, with any constraint that can. */
  lemma VersionIsRaised(version: string, b: Bound)
    requires GoodBound(b) && ParseVersion(version).Raised?
    ensures Satisfies(version, BoundText(b)) == Raised(ParseVersion(version).why)
  {
    hide ReadConstraint, ParseVersion, BoundText;
    BoundIsRead(b);
  }

  // ── Ranges

  /** A part of a range: a constraint, or white space alone. */
  datatype RangePart = Limit(bound: Bound) | Blank(space: string)

  predicate GoodPart(part: RangePart) {
    match part
    case Limit(b) => GoodBound(b)
    case Blank(space) => AllSpace(space)
  }

  function PartText(part: RangePart): string {
    match part
    case Limit(b) => BoundText(b)
    case Blank(space) => space
  }

  function PartTexts(parts: seq<RangePart>): (texts: seq<string>)
    ensures |texts| == |parts| && forall i :: 0 <= i < |parts| ==> texts[i] == PartText(parts[i])
  {
    if parts == [] then [] else [PartText(parts[0])] + PartTexts(parts[1..])
  }

  function RangeText(parts: seq<RangePart>): string
    requires parts != []
  {
    Join(PartTexts(parts), ',')
  }

  function Limits(parts: seq<RangePart>): seq<RangePart> {
    if parts == [] then [] else (if parts[0].Limit? then [parts[0]] else []) + Limits(parts[1..])
  }

  /** Every constraint of the range holds of the version. */
  ghost predicate Within(a: Version, parts: seq<RangePart>) {
    forall part <- parts :: part.Limit? ==> Meets(a, part.bound.sign, part.bound.version)
  }

  lemma BlankIsEmpty(space: string)
    requires AllSpace(space)
    ensures Strip(space) == [] && Without(space, ',')
  {
    assert space + [] == space;
    StripLeftPadded(space, []);
  }

  lemma {:induction false} BlanksAreLeftOut(parts: seq<RangePart>)
    requires forall part <- parts :: GoodPart(part)
    ensures NotBlank(PartTexts(parts)) == PartTexts(Limits(parts))
    ensures forall t <- PartTexts(parts) :: Without(t, ',')
  {
    hide BoundText, Strip, Without, GoodBound;
    if parts != [] {
      assert parts[0] in parts && forall part <- parts[1..] :: part in parts;
      BlanksAreLeftOut(parts[1..]);
      match parts[0]
      case Limit(b) =>
        BoundIsRead(b);
        assert ([parts[0]] + Limits(parts[1..]))[1..] == Limits(parts[1..]);
      case Blank(space) =>
        BlankIsEmpty(space);
        assert [] + Limits(parts[1..]) == Limits(parts[1..]);
    }
  }

  lemma {:induction false} LimitsAreAllSatisfied(a: Version, parts: seq<RangePart>)
    requires WellFormed(a) && forall part <- parts :: GoodPart(part)
    ensures AllSatisfied(Print(a), PartTexts(Limits(parts))) == Ok(Within(a, parts))
  {
    hide Satisfies, BoundText, Print, WellFormed, Meets, GoodBound;
    if parts != [] {
      var rest := parts[1..];
      assert parts[0] in parts && forall part <- rest :: part in parts;
      LimitsAreAllSatisfied(a, rest);
      assert Within(a, parts) <==> Within(a, rest) && (parts[0].Limit? ==> Meets(a, parts[0].bound.sign, parts[0].bound.version)) by {
        assert parts == [parts[0]] + rest;
      }
      if parts[0].Limit? {
        ConstraintMeansItsSign(a, parts[0].bound);
        var texts := PartTexts(Limits(parts));
        assert ([parts[0]] + Limits(rest))[1..] == Limits(rest);
        assert texts == [BoundText(parts[0].bound)] + PartTexts(Limits(rest));
        assert texts[1..] == PartTexts(Limits(rest));
      } else {
        assert [] + Limits(rest) == Limits(rest);
      }
    }
  }

  /** A range, however it is spaced, is refused when it has no constraint, and holds
      of a version exactly when each of its constraints does. */
  lemma RangeMeansItsLimits(a: Version, parts: seq<RangePart>)
    requires WellFormed(a) && parts != [] && forall part <- parts :: GoodPart(part)
    ensures Limits(parts) == [] <==> forall part <- parts :: part.Blank?
    ensures InRange(Print(a), RangeText(parts)) ==
            if Limits(parts) == [] then Raised("empty version range") else Ok(Within(a, parts))
  {
    hide AllSatisfied, PartText, Print, WellFormed, Split, Join, NotBlank;
    BlanksAreLeftOut(parts);
    SplitUndoesJoin(PartTexts(parts), ',');
    LimitsAreAllSatisfied(a, parts);
    NoLimits(parts);
  }

  lemma {:induction false} NoLimits(parts: seq<RangePart>)
    ensures Limits(parts) == [] <==> forall part <- parts :: part.Blank?
  {
    if parts != [] {
      NoLimits(parts[1..]);
      assert parts == [parts[0]] + parts[1..];
      assert (forall part <- parts :: part.Blank?) <==> parts[0].Blank? && forall part <- parts[1..] :: part.Blank?;
    }
  }

  // ── Severities

  /** The same word, but for capitals. */
  predicate SameWord(s: string, word: string) {
    |s| == |word| && forall i :: 0 <= i < |s| ==> s[i] == word[i] || (65 <= s[i] as int <= 90 && s[i] as int + 32 == word[i] as int)
  }

  predicate Small(word: string) { forall i :: 0 <= i < |word| ==> 97 <= word[i] as int <= 122 }

  lemma LoweredIsTheWord(s: string, word: string)
    requires Small(word)
    ensures Lower(s) == word <==> SameWord(s, word)
  {
    if SameWord(s, word) {
      forall i | 0 <= i < |s| ensures Lower(s)[i] == word[i] { }
      assert Lower(s) == word;
    }
    if Lower(s) == word {
      forall i | 0 <= i < |s| ensures s[i] == word[i] || (65 <= s[i] as int <= 90 && s[i] as int + 32 == word[i] as int) {
        assert Lower(s)[i] == word[i];
      }
    }
  }

  /** The levels, from the least: two words for the second. */
  const LEVELS: seq<seq<string>> := [["low"], ["moderate", "medium"], ["high"], ["critical"]]

  predicate IsLevel(s: string, k: nat)
    requires k < |LEVELS|
  {
    exists word <- LEVELS[k] :: SameWord(s, word)
  }

  lemma LevelsAreRanked(s: string)
    ensures forall k: nat :: k < |LEVELS| ==> (Rank(Lower(s)) == Some(k + 1) <==> IsLevel(s, k))
    ensures Rank(Lower(s)).Some? <==> exists k: nat :: k < |LEVELS| && IsLevel(s, k)
  {
    hide Lower, SameWord;
    LoweredIsTheWord(s, "low");
    LoweredIsTheWord(s, "moderate");
    LoweredIsTheWord(s, "medium");
    LoweredIsTheWord(s, "high");
    LoweredIsTheWord(s, "critical");
    assert IsLevel(s, 0) <==> SameWord(s, "low");
    assert IsLevel(s, 1) <==> SameWord(s, "moderate") || SameWord(s, "medium");
    assert IsLevel(s, 2) <==> SameWord(s, "high");
    assert IsLevel(s, 3) <==> SameWord(s, "critical");
    forall k: nat | k < |LEVELS| ensures Rank(Lower(s)) == Some(k + 1) <==> IsLevel(s, k) {
      assert k == 0 || k == 1 || k == 2 || k == 3;
    }
    if Rank(Lower(s)).Some? {
      assert IsLevel(s, Rank(Lower(s)).value - 1);
    }
  }

  predicate AtLeastAs(severity: string, minimum: string) {
    exists k: nat, j: nat :: j <= k < |LEVELS| && IsLevel(severity, k) && IsLevel(minimum, j)
  }

  // ── Findings

  /** A locked package whose version, and an advisory whose range, is as it should
      be written. */
  datatype Locked = Locked(name: string, version: Version)

  datatype Notice = Notice(
    package: string,
    ghsa: string,
    cve: Option<string>,
    severity: string,
    parts: seq<RangePart>,
    patched: Option<string>)

  predicate GoodNotice(n: Notice) {
    && n.parts != [] && (forall part <- n.parts :: GoodPart(part)) && Limits(n.parts) != []
    && exists k: nat :: k < |LEVELS| && IsLevel(n.severity, k)
  }

  function AsPackage(l: Locked): Package { Package(l.name, Print(l.version)) }

  function AsAdvisory(n: Notice): Advisory
    requires n.parts != []
  {
    Advisory(n.package, n.ghsa, n.cve, n.severity, RangeText(n.parts), n.patched)
  }

  /** The package is the advisory's, severe enough, and in its range. */
  ghost predicate Affected(l: Locked, n: Notice, minimum: string) {
    l.name == n.package && AtLeastAs(n.severity, minimum) && Within(l.version, n.parts)
  }

  lemma AffectedIsHit(l: Locked, n: Notice, minimum: string)
    requires WellFormed(l.version) && GoodNotice(n) && Rank(Lower(minimum)).Some?
    ensures var floor := Rank(Lower(minimum)).value;
      && (Hits(AsPackage(l), AsAdvisory(n), floor) <==> Affected(l, n, minimum))
      && Judge(AsPackage(l), AsAdvisory(n), floor).Ok?
  {
    hide Rank, Lower, InRange, IsLevel, RangeText, Within, WellFormed, Print, Limits, GoodPart;
    LevelsAreRanked(n.severity);
    LevelsAreRanked(minimum);
    RangeMeansItsLimits(l.version, n.parts);
    LevelsCompare(n.severity, minimum);
  }

  lemma LevelsCompare(severity: string, minimum: string)
    requires Rank(Lower(severity)).Some? && Rank(Lower(minimum)).Some?
    ensures AtLeastAs(severity, minimum) <==> Rank(Lower(severity)).value >= Rank(Lower(minimum)).value
  {
    hide Lower, IsLevel;
    LevelsAreRanked(severity);
    LevelsAreRanked(minimum);
    var k, j := Rank(Lower(severity)).value - 1, Rank(Lower(minimum)).value - 1;
    assert IsLevel(severity, k) && IsLevel(minimum, j);
  }

  function AsPackages(ls: seq<Locked>): seq<Package> {
    seq(|ls|, i requires 0 <= i < |ls| => AsPackage(ls[i]))
  }

  function AsAdvisories(ns: seq<Notice>): seq<Advisory>
    requires forall n <- ns :: GoodNotice(n)
  {
    seq(|ns|, i requires 0 <= i < |ns| => assert ns[i] in ns && GoodNotice(ns[i]); AsAdvisory(ns[i]))
  }

  /** A finding says which package and version, and which advisory, in its words but
      for capitals. */
  predicate SaysOf(f: Finding, l: Locked, n: Notice)
    requires n.parts != []
  {
    && f.package == l.name && f.version == Print(l.version)
    && f.ghsa == n.ghsa && f.cve == n.cve && f.patched == n.patched && f.range == RangeText(n.parts)
    && SameLetters(n.severity, f.severity)
  }

  predicate SameLetters(s: string, small: string) {
    |s| == |small| && forall i :: 0 <= i < |s| ==>
      small[i] == if 65 <= s[i] as int <= 90 then (s[i] as int + 32) as char else s[i]
  }

  lemma FindingSays(l: Locked, n: Notice, f: Finding)
    requires n.parts != []
    ensures f == FindingFor(AsPackage(l), AsAdvisory(n)) <==> SaysOf(f, l, n)
  {
    hide RangeText, Print;
    var s := Lower(n.severity);
    assert SameLetters(n.severity, s);
    if SameLetters(n.severity, f.severity) { assert f.severity == s; }
  }

  lemma {:induction false} AmongHits(p: Package, advisories: seq<Advisory>, floor: nat, f: Finding)
    ensures f in HitsOf(p, advisories, floor) <==>
            exists j :: 0 <= j < |advisories| && Hits(p, advisories[j], floor) && f == FindingFor(p, advisories[j])
  {
    hide Hits, FindingFor;
    if advisories != [] {
      AmongHits(p, advisories[1..], floor, f);
      if f in HitsOf(p, advisories[1..], floor) {
        var j :| 0 <= j < |advisories[1..]| && Hits(p, advisories[1..][j], floor) && f == FindingFor(p, advisories[1..][j]);
        assert advisories[j + 1] == advisories[1..][j];
      }
      if j :| 0 < j < |advisories| && Hits(p, advisories[j], floor) && f == FindingFor(p, advisories[j]) {
        assert advisories[1..][j - 1] == advisories[j];
      }
    }
  }

  lemma {:induction false} AmongAllHits(ps: seq<Package>, advisories: seq<Advisory>, floor: nat, f: Finding)
    ensures f in AllHits(ps, advisories, floor) <==> exists i :: 0 <= i < |ps| && f in HitsOf(ps[i], advisories, floor)
  {
    hide HitsOf;
    if ps != [] {
      AmongAllHits(ps[1..], advisories, floor, f);
      if f in AllHits(ps[1..], advisories, floor) {
        var i :| 0 <= i < |ps[1..]| && f in HitsOf(ps[1..][i], advisories, floor);
        assert ps[i + 1] == ps[1..][i];
      }
      if i :| 0 < i < |ps| && f in HitsOf(ps[i], advisories, floor) {
        assert ps[1..][i - 1] == ps[i];
      }
    }
  }

  /** A pair of a locked package and an advisory of which a finding speaks. */
  ghost predicate Accounts(f: Finding, ls: seq<Locked>, ns: seq<Notice>, minimum: string, i: nat, j: nat)
    requires i < |ls| && j < |ns| && forall n <- ns :: GoodNotice(n)
  {
    assert ns[j] in ns && GoodNotice(ns[j]);
    Affected(ls[i], ns[j], minimum) && SaysOf(f, ls[i], ns[j])
  }

  lemma AllAreReadable(ls: seq<Locked>, ns: seq<Notice>, minimum: string)
    requires (forall l <- ls :: WellFormed(l.version)) && (forall n <- ns :: GoodNotice(n)) && Rank(Lower(minimum)).Some?
    ensures AllReadable(AsPackages(ls), AsAdvisories(ns), Rank(Lower(minimum)).value)
  {
    hide Rank, Lower, Judge, GoodNotice, WellFormed, AsPackage, AsAdvisory, Affected, Hits;
    forall p <- AsPackages(ls), a <- AsAdvisories(ns) ensures Judge(p, a, Rank(Lower(minimum)).value).Ok? {
      var i :| 0 <= i < |ls| && AsPackages(ls)[i] == p;
      var j :| 0 <= j < |ns| && AsAdvisories(ns)[j] == a;
      assert ls[i] in ls && ns[j] in ns;
      AffectedIsHit(ls[i], ns[j], minimum);
    }
  }

  /** Of packages and advisories as they should be written, in any spacing and any
      capitals: the gate raises nothing, and a finding is made exactly when some
      package is affected by some advisory, and says so of them. */
  lemma FindingsAreTheAffected(ls: seq<Locked>, ns: seq<Notice>, minimum: string, f: Finding)
    requires (forall l <- ls :: WellFormed(l.version)) && (forall n <- ns :: GoodNotice(n))
    requires exists k: nat :: k < |LEVELS| && IsLevel(minimum, k)
    ensures var r := Evaluated(AsPackages(ls), AsAdvisories(ns), minimum);
      && r.Ok?
      && (f in r.value <==> exists i: nat, j: nat :: i < |ls| && j < |ns| && Accounts(f, ls, ns, minimum, i, j))
  {
    hide Rank, Lower, AllReadable, AllHits, Evaluated, InOrder, Alike, IsLevel, GoodNotice, WellFormed, Accounts, AsPackages, AsAdvisories;
    LevelsAreRanked(minimum);
    AllAreReadable(ls, ns, minimum);
    var (ps, advisories, floor) := (AsPackages(ls), AsAdvisories(ns), Rank(Lower(minimum)).value);
    FindingsAreExactlyTheHits(ps, advisories, minimum, f);
    var r := Evaluated(ps, advisories, minimum);
    assert f in r.value <==> f in AllHits(ps, advisories, floor) by {
      assert f in multiset(r.value) <==> f in multiset(AllHits(ps, advisories, floor));
    }
    HitsAccounted(ls, ns, minimum, f);
  }

  lemma HitsAccounted(ls: seq<Locked>, ns: seq<Notice>, minimum: string, f: Finding)
    requires (forall l <- ls :: WellFormed(l.version)) && (forall n <- ns :: GoodNotice(n)) && Rank(Lower(minimum)).Some?
    ensures f in AllHits(AsPackages(ls), AsAdvisories(ns), Rank(Lower(minimum)).value)
       <==> exists i: nat, j: nat :: i < |ls| && j < |ns| && Accounts(f, ls, ns, minimum, i, j)
  {
    hide Rank, Lower, AllHits, HitsOf, Hits, FindingFor, WellFormed, Affected, SaysOf, AsPackage, AsAdvisory;
    var (ps, advisories, floor) := (AsPackages(ls), AsAdvisories(ns), Rank(Lower(minimum)).value);
    AmongAllHits(ps, advisories, floor, f);
    forall i: nat, j: nat | i < |ls| && j < |ns|
      ensures Hits(ps[i], advisories[j], floor) && f == FindingFor(ps[i], advisories[j]) <==> Accounts(f, ls, ns, minimum, i, j)
    {
      assert ls[i] in ls && ns[j] in ns;
      AffectedIsHit(ls[i], ns[j], minimum);
      FindingSays(ls[i], ns[j], f);
    }
    forall i | 0 <= i < |ps|
      ensures f in HitsOf(ps[i], advisories, floor) <==> exists j: nat :: j < |ns| && Accounts(f, ls, ns, minimum, i, j)
    {
      AmongHits(ps[i], advisories, floor, f);
    }
  }

  // ── In which order

  /** Every finding is of some level, and in small letters. */
  lemma FindingHasALevel(packages: seq<Package>, advisories: seq<Advisory>, minimum: string, f: Finding)
    requires Evaluated(packages, advisories, minimum).Ok? && f in Evaluated(packages, advisories, minimum).value
    ensures Lower(f.severity) == f.severity && Rank(f.severity).Some?
  {
    hide Rank, Lower, AllHits, HitsOf, Evaluated, AllReadable, InOrder, Alike, InRange;
    FindingsAreExactlyTheHits(packages, advisories, minimum, f);
    var floor := Rank(Lower(minimum)).value;
    var hits := AllHits(packages, advisories, floor);
    assert f in multiset(hits) by { assert f in multiset(Evaluated(packages, advisories, minimum).value); }
    AmongAllHits(packages, advisories, floor, f);
    var i :| 0 <= i < |packages| && f in HitsOf(packages[i], advisories, floor);
    AmongHits(packages[i], advisories, floor, f);
    var j :| 0 <= j < |advisories| && Hits(packages[i], advisories[j], floor) && f == FindingFor(packages[i], advisories[j]);
    LoweredTwice(advisories[j].severity);
  }

  lemma LoweredTwice(s: string)
    ensures Lower(Lower(s)) == Lower(s)
  {
  }

  /** Worst first; of one severity by package, and of one package by advisory, each
      by the first letter that differs. */
  lemma FindingsAreInOrder(packages: seq<Package>, advisories: seq<Advisory>, minimum: string, i: nat, j: nat)
    requires var r := Evaluated(packages, advisories, minimum); r.Ok? && i < j < |r.value|
    ensures var f, g := Evaluated(packages, advisories, minimum).value[i], Evaluated(packages, advisories, minimum).value[j];
      exists k: nat, l: nat :: l <= k < |LEVELS| && IsLevel(f.severity, k) && IsLevel(g.severity, l)
        && (k == l ==>
              || FirstDifferenceBelow(CharLess, f.package, g.package)
              || (f.package == g.package && (f.ghsa == g.ghsa || FirstDifferenceBelow(CharLess, f.ghsa, g.ghsa))))
  {
    hide Evaluated, Rank, Lex, FirstDifferenceBelow, IsLevel, Lower;
    var fs := Evaluated(packages, advisories, minimum).value;
    var f, g := fs[i], fs[j];
    FindingsAreExactlyTheHits(packages, advisories, minimum, f);
    FindingHasALevel(packages, advisories, minimum, f);
    FindingHasALevel(packages, advisories, minimum, g);
    LevelsAreRanked(f.severity);
    LevelsAreRanked(g.severity);
    RanksAreSmall(f.severity);
    RanksAreSmall(g.severity);
    assert !Sooner(g, f);
    assert StrictOrder(CharLess);
    LexIsStrict(CharLess);
    LexIsFirstDifference(CharLess, f.package, g.package);
    LexIsFirstDifference(CharLess, f.ghsa, g.ghsa);
    var k, l := Rank(f.severity).value - 1, Rank(g.severity).value - 1;
    assert IsLevel(f.severity, k) && IsLevel(g.severity, l);
  }

  lemma RanksAreSmall(s: string)
    ensures Rank(s).Some? ==> 1 <= Rank(s).value <= 4
  {
  }

  // ── Which error

  /** Every pair of a package and an advisory about it, in the order judged. */
  function PairsOf(p: Package, advisories: seq<Advisory>): seq<(Package, Advisory)> {
    if advisories == [] then []
    else (if advisories[0].package == p.name then [(p, advisories[0])] else []) + PairsOf(p, advisories[1..])
  }

  function Pairs(ps: seq<Package>, advisories: seq<Advisory>): seq<(Package, Advisory)> {
    if ps == [] then [] else PairsOf(ps[0], advisories) + Pairs(ps[1..], advisories)
  }

  /** The first of these that cannot be judged says this. */
  predicate FirstRaises(pairs: seq<(Package, Advisory)>, floor: nat, why: string) {
    exists k :: 0 <= k < |pairs| && RaisesAt(pairs, floor, why, k)
  }

  predicate RaisesAt(pairs: seq<(Package, Advisory)>, floor: nat, why: string, k: nat)
    requires k < |pairs|
  {
    Judge(pairs[k].0, pairs[k].1, floor) == Raised(why) && AllJudged(pairs[..k], floor)
  }

  predicate AllJudged(pairs: seq<(Package, Advisory)>, floor: nat) {
    forall pair <- pairs :: Judge(pair.0, pair.1, floor).Ok?
  }

  /** What this says of some pairs. */
  predicate Outcome(r: Result<seq<Finding>>, pairs: seq<(Package, Advisory)>, floor: nat) {
    match r
    case Raised(why) => FirstRaises(pairs, floor, why)
    case Ok(_) => AllJudged(pairs, floor)
  }

  lemma ChainedOutcome(r: Result<seq<Finding>>, s: Result<seq<Finding>>, a: seq<(Package, Advisory)>,
                       b: seq<(Package, Advisory)>, floor: nat)
    requires Outcome(r, a, floor) && Outcome(s, b, floor)
    ensures Outcome(Chain(r, s), a + b, floor)
  {
    hide Judge;
    match r
    case Raised(why) =>
      var k :| 0 <= k < |a| && RaisesAt(a, floor, why, k);
      assert (a + b)[..k] == a[..k] && RaisesAt(a + b, floor, why, k);
    case Ok(_) =>
      match s
      case Raised(why) =>
        var k :| 0 <= k < |b| && RaisesAt(b, floor, why, k);
        assert (a + b)[..|a| + k] == a + b[..k] && RaisesAt(a + b, floor, why, |a| + k);
      case Ok(_) =>
  }

  lemma OneOutcome(p: Package, a: Advisory, floor: nat)
    ensures Outcome(Judge(p, a, floor), [(p, a)], floor)
  {
    hide Judge;
    if Judge(p, a, floor).Raised? { assert RaisesAt([(p, a)], floor, Judge(p, a, floor).why, 0); }
  }

  lemma NoOutcome(floor: nat)
    ensures Outcome(Ok([]), [], floor)
  {
  }

  lemma {:induction false} AllOutcome(p: Package, advisories: seq<Advisory>, floor: nat)
    ensures Outcome(JudgeAll(p, About(advisories, p.name), floor), PairsOf(p, advisories), floor)
  {
    hide Judge, Outcome, Chain;
    if advisories == [] {
      NoOutcome(floor);
    } else {
      var a, rest := advisories[0], advisories[1..];
      AllOutcome(p, rest, floor);
      if a.package == p.name {
        OneOutcome(p, a, floor);
        AdvisoryHere(p, [a] + About(rest, p.name), floor);
        assert ([a] + About(rest, p.name))[1..] == About(rest, p.name);
        ChainedOutcome(Judge(p, a, floor), JudgeAll(p, About(rest, p.name), floor), [(p, a)], PairsOf(p, rest), floor);
      } else {
        assert [] + About(rest, p.name) == About(rest, p.name) && [] + PairsOf(p, rest) == PairsOf(p, rest);
      }
    }
  }

  lemma {:induction false} PackagesOutcome(ps: seq<Package>, advisories: seq<Advisory>, floor: nat)
    ensures Outcome(JudgePackages(ps, advisories, floor), Pairs(ps, advisories), floor)
  {
    hide JudgeAll, Outcome, Chain;
    if ps == [] {
      NoOutcome(floor);
    } else {
      AllOutcome(ps[0], advisories, floor);
      PackagesOutcome(ps[1..], advisories, floor);
      ChainedOutcome(JudgeAll(ps[0], About(advisories, ps[0].name), floor), JudgePackages(ps[1..], advisories, floor),
                     PairsOf(ps[0], advisories), Pairs(ps[1..], advisories), floor);
    }
  }

  /** What the gate raises is what the first pair raises that cannot be judged, unless
      the floor itself is unknown. */
  lemma FirstErrorIsRaised(packages: seq<Package>, advisories: seq<Advisory>, minimum: string)
    ensures var r := Evaluated(packages, advisories, minimum);
            r.Raised? ==>
              if Rank(Lower(minimum)).None? then r.why == "unknown severity: " + minimum
              else FirstRaises(Pairs(packages, advisories), Rank(Lower(minimum)).value, r.why)
  {
    hide Rank, Lower, JudgePackages, FirstRaises, Pairs, Sorted;
    if Rank(Lower(minimum)).Some? {
      PackagesOutcome(packages, advisories, Rank(Lower(minimum)).value);
    }
  }

  /** A severity nobody knows is raised whatever the range; below the floor the range
      is not looked at. */
  lemma SeverityComesFirst(p: Package, a: Advisory, floor: nat)
    ensures (forall k: nat :: k < |LEVELS| ==> !IsLevel(a.severity, k)) ==>
              Judge(p, a, floor) == Raised("unknown severity: " + a.severity)
    ensures forall k: nat :: k < |LEVELS| && IsLevel(a.severity, k) && k + 1 < floor ==> Judge(p, a, floor) == Ok([])
    ensures forall k: nat :: k < |LEVELS| && IsLevel(a.severity, k) && k + 1 >= floor && InRange(p.version, a.range).Raised? ==>
              Judge(p, a, floor) == Raised(InRange(p.version, a.range).why)
  {
    hide Rank, Lower, InRange, IsLevel;
    LevelsAreRanked(a.severity);
  }
}
