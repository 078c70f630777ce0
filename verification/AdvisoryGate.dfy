/** Which locked packages are hit by which advisories. */
module AdvisoryGate {
  import opened Text
  import opened SemVer

  // ── Ranges

  datatype Operator = Equal | Below | AtMost | Above | AtLeast

  /** A sign at the front, and a text without white space after it. */
  function After(sign: string, s: string): Option<string> {
    if |sign| <= |s| && s[..|sign|] == sign && Solid(StripLeft(s[|sign|..]))
    then Some(StripLeft(s[|sign|..]))
    else None
  }

  predicate Solid(s: string) { s != [] && forall i :: 0 <= i < |s| ==> !IsSpace(s[i]) }

  /** One constraint: the signs are tried in this order, and none means equal. */
  function ReadConstraint(constraint: string): Option<(Operator, string)> {
    var s := Strip(constraint);
    if After("<=", s).Some? then Some((AtMost, After("<=", s).value))
    else if After(">=", s).Some? then Some((AtLeast, After(">=", s).value))
    else if After("<", s).Some? then Some((Below, After("<", s).value))
    else if After(">", s).Some? then Some((Above, After(">", s).value))
    else if After("=", s).Some? then Some((Equal, After("=", s).value))
    else if After("==", s).Some? then Some((Equal, After("==", s).value))
    else if Solid(s) then Some((Equal, s))
    else None
  }

  predicate Holds(op: Operator, left: Key, right: Key) {
    match op
    case Equal => left == right
    case Below => KeyLess(left, right)
    case AtMost => KeyLess(left, right) || left == right
    case Above => KeyLess(right, left)
    case AtLeast => KeyLess(right, left) || left == right
  }

  function Satisfies(version: string, constraint: string): Result<bool> {
    match ReadConstraint(constraint)
    case None => Raised("unreadable version constraint: " + constraint)
    case Some((op, text)) =>
      match ParseVersion(version)
      case Raised(why) => Raised(why)
      case Ok(left) =>
        match ParseVersion(text)
        case Raised(why) => Raised(why)
        case Ok(right) => Ok(Holds(op, left, right))
  }

  function NotBlank(parts: seq<string>): seq<string> {
    if parts == [] then []
    else (if Strip(parts[0]) == [] then [] else [parts[0]]) + NotBlank(parts[1..])
  }

  /** Every part, up to the first that does not hold. */
  function AllSatisfied(version: string, parts: seq<string>): Result<bool> {
    if parts == [] then Ok(true)
    else
      match Satisfies(version, parts[0])
      case Ok(true) => AllSatisfied(version, parts[1..])
      case other => other
  }

  function InRange(version: string, vulnerable: string): Result<bool> {
    var parts := NotBlank(Split(vulnerable, ','));
    if parts == [] then Raised("empty version range") else AllSatisfied(version, parts)
  }

  predicate NotAbove(a: Key, b: Key) { KeyLess(a, b) || a == b }

  lemma HoldsBetween(op: Operator, a: Key, b: Key, c: Key, right: Key)
    requires NotAbove(a, b) && NotAbove(b, c) && Holds(op, a, right) && Holds(op, c, right)
    ensures Holds(op, b, right)
  {
    hide KeyLess;
    KeysAreOrdered();
  }

  lemma {:induction false} AllHoldBetween(a: string, b: string, c: string, parts: seq<string>)
    requires ParseVersion(a).Ok? && ParseVersion(b).Ok? && ParseVersion(c).Ok?
    requires NotAbove(ParseVersion(a).value, ParseVersion(b).value)
    requires NotAbove(ParseVersion(b).value, ParseVersion(c).value)
    requires AllSatisfied(a, parts) == Ok(true) && AllSatisfied(c, parts) == Ok(true)
    ensures AllSatisfied(b, parts) == Ok(true)
  {
    hide ParseVersion, ReadConstraint, Holds, NotAbove;
    if parts != [] {
      var read := ReadConstraint(parts[0]).value;
      HoldsBetween(read.0, ParseVersion(a).value, ParseVersion(b).value, ParseVersion(c).value, ParseVersion(read.1).value);
      AllHoldBetween(a, b, c, parts[1..]);
    }
  }

  /** A text that is read as a version not above the other's. */
  predicate ReadNotAbove(a: string, b: string) {
    ParseVersion(a).Ok? && ParseVersion(b).Ok? && NotAbove(ParseVersion(a).value, ParseVersion(b).value)
  }

  /** A range is an interval: what lies between two versions in it is in it. */
  lemma RangesAreConvex(a: string, b: string, c: string, vulnerable: string)
    ensures ReadNotAbove(a, b) && ReadNotAbove(b, c)
            && InRange(a, vulnerable) == Ok(true) && InRange(c, vulnerable) == Ok(true)
            ==> InRange(b, vulnerable) == Ok(true)
  {
    hide ParseVersion, AllSatisfied, NotAbove, NotBlank, Split;
    if ReadNotAbove(a, b) && ReadNotAbove(b, c)
       && InRange(a, vulnerable) == Ok(true) && InRange(c, vulnerable) == Ok(true) {
      AllHoldBetween(a, b, c, NotBlank(Split(vulnerable, ',')));
    }
  }

  // ── Findings

  datatype Package = Package(name: string, version: string)

  datatype Advisory = Advisory(
    package: string,
    ghsa: string,
    cve: Option<string>,
    severity: string,
    range: string,
    patched: Option<string>)

  datatype Finding = Finding(
    package: string,
    version: string,
    ghsa: string,
    cve: Option<string>,
    severity: string,
    range: string,
    patched: Option<string>)

  function LowerChar(c: char): char {
    if 'A' <= c <= 'Z' then (c as int + 32) as char else c
  }

  function Lower(s: string): string {
    seq(|s|, i requires 0 <= i < |s| => LowerChar(s[i]))
  }

  function Rank(severity: string): Option<nat> {
    if severity == "low" then Some(1)
    else if severity == "moderate" || severity == "medium" then Some(2)
    else if severity == "high" then Some(3)
    else if severity == "critical" then Some(4)
    else None
  }

  function RankOf(severity: string): nat {
    if Rank(severity).Some? then Rank(severity).value else 0
  }

  function FindingFor(p: Package, a: Advisory): Finding {
    Finding(p.name, p.version, a.ghsa, a.cve, Lower(a.severity), a.range, a.patched)
  }

  /** One package against one advisory about it. */
  function Judge(p: Package, a: Advisory, floor: nat): Result<seq<Finding>> {
    match Rank(Lower(a.severity))
    case None => Raised("unknown severity: " + a.severity)
    case Some(rank) =>
      if rank < floor then Ok([])
      else
        match InRange(p.version, a.range)
        case Raised(why) => Raised(why)
        case Ok(hit) => Ok(if hit then [FindingFor(p, a)] else [])
  }

  /** The first error, or both lists. */
  function Chain(r: Result<seq<Finding>>, s: Result<seq<Finding>>): Result<seq<Finding>> {
    match r
    case Raised(_) => r
    case Ok(a) =>
      match s
      case Raised(_) => s
      case Ok(b) => Ok(a + b)
  }

  function About(advisories: seq<Advisory>, name: string): seq<Advisory> {
    if advisories == [] then []
    else (if advisories[0].package == name then [advisories[0]] else []) + About(advisories[1..], name)
  }

  function JudgeAll(p: Package, advisories: seq<Advisory>, floor: nat): Result<seq<Finding>> {
    if advisories == [] then Ok([])
    else Chain(Judge(p, advisories[0], floor), JudgeAll(p, advisories[1..], floor))
  }

  function JudgePackages(ps: seq<Package>, advisories: seq<Advisory>, floor: nat): Result<seq<Finding>> {
    if ps == [] then Ok([])
    else Chain(JudgeAll(ps[0], About(advisories, ps[0].name), floor), JudgePackages(ps[1..], advisories, floor))
  }

  /** Worst first, then by package and by advisory. */
  predicate Sooner(f: Finding, g: Finding) {
    || RankOf(f.severity) > RankOf(g.severity)
    || (RankOf(f.severity) == RankOf(g.severity) && Lex(CharLess, f.package, g.package))
    || (RankOf(f.severity) == RankOf(g.severity) && f.package == g.package && Lex(CharLess, f.ghsa, g.ghsa))
  }

  /** The platform's stable sort by that key. */
  function Insert(f: Finding, fs: seq<Finding>): seq<Finding> {
    if fs == [] || !Sooner(fs[0], f) then [f] + fs else [fs[0]] + Insert(f, fs[1..])
  }

  function Sorted(fs: seq<Finding>): seq<Finding> {
    if fs == [] then [] else Insert(fs[0], Sorted(fs[1..]))
  }

  function Evaluated(packages: seq<Package>, advisories: seq<Advisory>, minimum: string): Result<seq<Finding>> {
    match Rank(Lower(minimum))
    case None => Raised("unknown severity: " + minimum)
    case Some(floor) =>
      match JudgePackages(packages, advisories, floor)
      case Raised(why) => Raised(why)
      case Ok(findings) => Ok(Sorted(findings))
  }

  method Evaluate(packages: seq<Package>, advisories: seq<Advisory>, minimum: string) returns (r: Result<seq<Finding>>)
    ensures r == Evaluated(packages, advisories, minimum)
  {
    hide Rank, Lower, JudgePackages, JudgeAll, InRange, Sorted, About, Judge;
    var floor := Rank(Lower(minimum));
    if floor.None? {
      return Raised("unknown severity: " + minimum);
    }
    var byPackage := Grouped(advisories);
    var findings: seq<Finding> := [];
    assert packages[0..] == packages;
    ChainUnit(JudgePackages(packages, advisories, floor.value));
    for i := 0 to |packages|
      invariant JudgePackages(packages, advisories, floor.value)
             == Chain(Ok(findings), JudgePackages(packages[i..], advisories, floor.value))
    {
      var p := packages[i];
      var about := if p.name in byPackage then byPackage[p.name] else [];
      ghost var rest := JudgePackages(packages[i + 1..], advisories, floor.value);
      PackageHere(packages[i..], advisories, floor.value);
      assert packages[i..][0] == p && packages[i..][1..] == packages[i + 1..];
      assert about[0..] == about;
      for j := 0 to |about|
        invariant JudgePackages(packages, advisories, floor.value)
               == Chain(Ok(findings), Chain(JudgeAll(p, about[j..], floor.value), rest))
      {
        AdvisoryHere(p, about[j..], floor.value);
        assert about[j..][0] == about[j] && about[j..][1..] == about[j + 1..];
        var judged := JudgeOne(p, about[j], floor.value);
        ChainRegroups(findings, judged, JudgeAll(p, about[j + 1..], floor.value), rest);
        if judged.Raised? {
          return Raised(judged.why);
        }
        findings := findings + judged.value;
      }
      NothingJudged(p, floor.value);
      assert about[|about|..] == [];
      ChainUnit(rest);
    }
    NoPackages(advisories, floor.value);
    assert packages[|packages|..] == [] && findings + [] == findings;
    return Ok(Sorted(findings));
  }

  /** The body of the inner loop: nothing, a finding, or an error. */
  method JudgeOne(p: Package, a: Advisory, floor: nat) returns (r: Result<seq<Finding>>)
    ensures r == Judge(p, a, floor)
  {
    hide Rank, Lower, InRange;
    var severity := Rank(Lower(a.severity));
    if severity.None? {
      return Raised("unknown severity: " + a.severity);
    }
    if severity.value < floor {
      return Ok([]);
    }
    var hit := InRange(p.version, a.range);
    if hit.Raised? {
      return Raised(hit.why);
    }
    if !hit.value {
      return Ok([]);
    }
    return Ok([FindingFor(p, a)]);
  }

  method Grouped(advisories: seq<Advisory>) returns (groups: map<string, seq<Advisory>>)
    ensures forall name :: (if name in groups then groups[name] else []) == About(advisories, name)
  {
    hide About;
    groups := map[];
    forall name ensures About([], name) == [] { NothingAbout(name); }
    assert advisories[..0] == [];
    for i := 0 to |advisories|
      invariant forall name :: (if name in groups then groups[name] else []) == About(advisories[..i], name)
    {
      var a := advisories[i];
      forall name
        ensures About(advisories[..i + 1], name) == About(advisories[..i], name) + if a.package == name then [a] else []
      {
        assert advisories[..i + 1] == advisories[..i] + [a];
        AboutOneMore(advisories[..i], a, name);
      }
      var group := if a.package in groups then groups[a.package] else [];
      groups := groups[a.package := group + [a]];
    }
    assert advisories[..|advisories|] == advisories;
  }

  lemma NothingAbout(name: string)
    ensures About([], name) == []
  {
  }

  lemma {:induction false} AboutOneMore(advisories: seq<Advisory>, a: Advisory, name: string)
    ensures About(advisories + [a], name) == About(advisories, name) + if a.package == name then [a] else []
  {
    if advisories == [] {
      assert advisories + [a] == [a] && [a][1..] == [];
    } else {
      assert (advisories + [a])[1..] == advisories[1..] + [a];
      AboutOneMore(advisories[1..], a, name);
    }
  }

  lemma ChainUnit(r: Result<seq<Finding>>)
    ensures Chain(Ok([]), r) == r
  {
    if r.Ok? { assert [] + r.value == r.value; }
  }

  lemma ChainRegroups(fs: seq<Finding>, one: Result<seq<Finding>>, more: Result<seq<Finding>>, rest: Result<seq<Finding>>)
    ensures Chain(Ok(fs), Chain(Chain(one, more), rest))
         == if one.Raised? then one else Chain(Ok(fs + one.value), Chain(more, rest))
  {
    if one.Ok? && more.Ok? && rest.Ok? {
      assert fs + (one.value + more.value + rest.value) == fs + one.value + (more.value + rest.value);
    }
  }

  lemma PackageHere(ps: seq<Package>, advisories: seq<Advisory>, floor: nat)
    requires ps != []
    ensures JudgePackages(ps, advisories, floor)
         == Chain(JudgeAll(ps[0], About(advisories, ps[0].name), floor), JudgePackages(ps[1..], advisories, floor))
  {
  }

  lemma AdvisoryHere(p: Package, advisories: seq<Advisory>, floor: nat)
    requires advisories != []
    ensures JudgeAll(p, advisories, floor) == Chain(Judge(p, advisories[0], floor), JudgeAll(p, advisories[1..], floor))
  {
  }

  lemma NothingJudged(p: Package, floor: nat)
    ensures JudgeAll(p, [], floor) == Ok([])
  {
  }

  lemma NoPackages(advisories: seq<Advisory>, floor: nat)
    ensures JudgePackages([], advisories, floor) == Ok([])
  {
  }

  // ── Exactly the pairs

  predicate Hits(p: Package, a: Advisory, floor: nat) {
    && p.name == a.package
    && Rank(Lower(a.severity)).Some? && Rank(Lower(a.severity)).value >= floor
    && InRange(p.version, a.range) == Ok(true)
  }

  /** One finding for every pair, of all pairs, that hits. */
  function HitsOf(p: Package, advisories: seq<Advisory>, floor: nat): seq<Finding> {
    if advisories == [] then []
    else (if Hits(p, advisories[0], floor) then [FindingFor(p, advisories[0])] else []) + HitsOf(p, advisories[1..], floor)
  }

  function AllHits(ps: seq<Package>, advisories: seq<Advisory>, floor: nat): seq<Finding> {
    if ps == [] then [] else HitsOf(ps[0], advisories, floor) + AllHits(ps[1..], advisories, floor)
  }

  /** No advisory about the package has a severity or a range it cannot read. */
  predicate Readable(p: Package, advisories: seq<Advisory>, floor: nat) {
    forall a <- advisories :: a.package == p.name ==> Judge(p, a, floor).Ok?
  }

  predicate AllReadable(ps: seq<Package>, advisories: seq<Advisory>, floor: nat) {
    forall p <- ps :: Readable(p, advisories, floor)
  }

  lemma JudgedIsHit(p: Package, a: Advisory, floor: nat)
    requires p.name == a.package && Judge(p, a, floor).Ok?
    ensures Judge(p, a, floor).value == if Hits(p, a, floor) then [FindingFor(p, a)] else []
  {
    hide Rank, Lower, InRange;
  }

  lemma {:induction false} JudgedAreHits(p: Package, advisories: seq<Advisory>, floor: nat)
    ensures JudgeAll(p, About(advisories, p.name), floor).Ok? <==> Readable(p, advisories, floor)
    ensures Readable(p, advisories, floor) ==>
              JudgeAll(p, About(advisories, p.name), floor) == Ok(HitsOf(p, advisories, floor))
  {
    hide Judge, Hits, FindingFor;
    if advisories != [] {
      var a, rest := advisories[0], advisories[1..];
      JudgedAreHits(p, rest, floor);
      assert Readable(p, advisories, floor) <==> (a.package == p.name ==> Judge(p, a, floor).Ok?) && Readable(p, rest, floor) by {
        assert a in advisories && forall b <- rest :: b in advisories;
      }
      if a.package == p.name {
        assert About(advisories, p.name) == [a] + About(rest, p.name);
        assert ([a] + About(rest, p.name))[1..] == About(rest, p.name);
        if Judge(p, a, floor).Ok? { JudgedIsHit(p, a, floor); }
      } else {
        assert About(advisories, p.name) == [] + About(rest, p.name) == About(rest, p.name);
        NoHit(p, a, floor);
        assert [] + HitsOf(p, rest, floor) == HitsOf(p, rest, floor);
      }
    }
  }

  lemma NoHit(p: Package, a: Advisory, floor: nat)
    requires a.package != p.name
    ensures !Hits(p, a, floor)
  {
  }

  lemma {:induction false} PackagesJudgedAreHits(ps: seq<Package>, advisories: seq<Advisory>, floor: nat)
    ensures JudgePackages(ps, advisories, floor).Ok? <==> AllReadable(ps, advisories, floor)
    ensures AllReadable(ps, advisories, floor) ==>
              JudgePackages(ps, advisories, floor) == Ok(AllHits(ps, advisories, floor))
  {
    hide JudgeAll, Readable, HitsOf, About;
    if ps != [] {
      PackagesJudgedAreHits(ps[1..], advisories, floor);
      JudgedAreHits(ps[0], advisories, floor);
      assert AllReadable(ps, advisories, floor)
        <==> Readable(ps[0], advisories, floor) && AllReadable(ps[1..], advisories, floor) by {
        assert ps[0] in ps && forall p <- ps[1..] :: p in ps;
      }
    }
  }

  // ── In order

  predicate InOrder(fs: seq<Finding>) {
    forall i, j :: 0 <= i < j < |fs| ==> !Sooner(fs[j], fs[i])
  }

  /** Of the findings with the same key as `like`, in the order they have. */
  function Alike(fs: seq<Finding>, like: Finding): seq<Finding> {
    if fs == [] then []
    else (if SameKey(fs[0], like) then [fs[0]] else []) + Alike(fs[1..], like)
  }

  predicate SameKey(f: Finding, g: Finding) {
    RankOf(f.severity) == RankOf(g.severity) && f.package == g.package && f.ghsa == g.ghsa
  }

  lemma SoonerIsAnOrder(f: Finding, g: Finding, h: Finding)
    ensures !Sooner(f, f)
    ensures Sooner(f, g) && Sooner(g, h) ==> Sooner(f, h)
    ensures Sooner(f, g) || SameKey(f, g) || Sooner(g, f)
    ensures !Sooner(g, f) && !Sooner(h, g) ==> !Sooner(h, f)
  {
    hide Lex, RankOf;
    assert StrictOrder(CharLess);
    LexIsStrict(CharLess);
  }

  lemma {:induction false} InsertKeeps(f: Finding, fs: seq<Finding>)
    ensures multiset(Insert(f, fs)) == multiset([f]) + multiset(fs)
    ensures Insert(f, fs) != [] && (Insert(f, fs)[0] == f || (fs != [] && Insert(f, fs)[0] == fs[0] && Sooner(fs[0], f)))
  {
    hide Sooner;
    if fs != [] && Sooner(fs[0], f) {
      InsertKeeps(f, fs[1..]);
      assert fs == [fs[0]] + fs[1..];
    }
  }

  lemma {:induction false} InsertInOrder(f: Finding, fs: seq<Finding>)
    requires InOrder(fs)
    ensures InOrder(Insert(f, fs))
  {
    hide Sooner;
    if fs == [] || !Sooner(fs[0], f) {
      var out := [f] + fs;
      forall i, j | 0 <= i < j < |out| ensures !Sooner(out[j], out[i]) {
        if i == 0 && j > 1 { SoonerIsAnOrder(f, fs[0], fs[j - 1]); }
      }
    } else {
      var rest := Insert(f, fs[1..]);
      InsertInOrder(f, fs[1..]);
      InsertKeeps(f, fs[1..]);
      forall j | 0 <= j < |rest| ensures !Sooner(rest[j], fs[0]) {
        assert rest[j] in multiset(rest);
        SoonerIsAnOrder(f, fs[0], f);
        if rest[j] != f {
          assert rest[j] in fs[1..];
        } else {
          SoonerIsAnOrder(fs[0], f, fs[0]);
        }
      }
    }
  }

  lemma {:induction false} InsertIsStable(f: Finding, fs: seq<Finding>, like: Finding)
    ensures Alike(Insert(f, fs), like) == (if SameKey(f, like) then [f] else []) + Alike(fs, like)
  {
    hide Sooner, SameKey;
    if fs == [] || !Sooner(fs[0], f) {
      assert ([f] + fs)[1..] == fs;
    } else {
      InsertIsStable(f, fs[1..], like);
      SoonerDiffers(fs[0], f, like);
      assert ([fs[0]] + Insert(f, fs[1..]))[1..] == Insert(f, fs[1..]);
    }
  }

  lemma SoonerDiffers(f: Finding, g: Finding, like: Finding)
    requires Sooner(f, g)
    ensures !(SameKey(f, like) && SameKey(g, like))
  {
    hide Lex, RankOf;
    assert StrictOrder(CharLess);
    LexIsStrict(CharLess);
  }

  lemma {:induction false} SortedIsAStableSort(fs: seq<Finding>, like: Finding)
    ensures multiset(Sorted(fs)) == multiset(fs) && InOrder(Sorted(fs)) && Alike(Sorted(fs), like) == Alike(fs, like)
  {
    hide Insert, Sooner, SameKey;
    if fs != [] {
      var sorted := Sorted(fs[1..]);
      SortedIsAStableSort(fs[1..], like);
      InsertKeeps(fs[0], sorted);
      InsertInOrder(fs[0], sorted);
      InsertIsStable(fs[0], sorted, like);
      assert fs == [fs[0]] + fs[1..];
    }
  }

  /** The gate raises nothing exactly when the floor is known and every pair with
      one name can be judged; then its findings are one for each pair that hits
      and no other, worst first, and equals in the order they were given. */
  lemma FindingsAreExactlyTheHits(packages: seq<Package>, advisories: seq<Advisory>, minimum: string, like: Finding)
    ensures var r, floor := Evaluated(packages, advisories, minimum), Rank(Lower(minimum));
      && (r.Ok? <==> floor.Some? && AllReadable(packages, advisories, floor.value))
      && (r.Ok? ==>
            var hits := AllHits(packages, advisories, floor.value);
            && multiset(r.value) == multiset(hits)
            && InOrder(r.value)
            && Alike(r.value, like) == Alike(hits, like))
  {
    hide Rank, Lower, JudgePackages, AllReadable, AllHits, Sorted, InOrder, Alike;
    var floor := Rank(Lower(minimum));
    if floor.Some? {
      PackagesJudgedAreHits(packages, advisories, floor.value);
      SortedIsAStableSort(AllHits(packages, advisories, floor.value), like);
    }
  }

  lemma {:induction false} FewerHits(p: Package, advisories: seq<Advisory>, low: nat, high: nat)
    requires low <= high
    ensures multiset(HitsOf(p, advisories, high)) <= multiset(HitsOf(p, advisories, low))
  {
    hide FindingFor, Rank, Lower, InRange;
    if advisories != [] { FewerHits(p, advisories[1..], low, high); }
  }

  lemma {:induction false} FewerHitsInAll(ps: seq<Package>, advisories: seq<Advisory>, low: nat, high: nat)
    requires low <= high
    ensures multiset(AllHits(ps, advisories, high)) <= multiset(AllHits(ps, advisories, low))
  {
    hide HitsOf;
    if ps != [] {
      FewerHits(ps[0], advisories, low, high);
      FewerHitsInAll(ps[1..], advisories, low, high);
    }
  }

  lemma StillReadable(ps: seq<Package>, advisories: seq<Advisory>, low: nat, high: nat)
    requires low <= high && AllReadable(ps, advisories, low)
    ensures AllReadable(ps, advisories, high)
  {
    hide Rank, Lower, InRange;
    forall p <- ps, a <- advisories | a.package == p.name ensures Judge(p, a, high).Ok? {
      assert Readable(p, advisories, low);
      assert Judge(p, a, low).Ok?;
    }
  }

  /** A higher floor finds no more, and raises nothing where a lower one did not. */
  lemma HigherFloorFindsLess(packages: seq<Package>, advisories: seq<Advisory>, low: string, high: string)
    requires Rank(Lower(low)).Some? && Rank(Lower(high)).Some?
    requires Rank(Lower(low)).value <= Rank(Lower(high)).value
    requires Evaluated(packages, advisories, low).Ok?
    ensures var r := Evaluated(packages, advisories, high);
            r.Ok? && multiset(r.value) <= multiset(Evaluated(packages, advisories, low).value)
  {
    hide Rank, Lower, AllReadable, AllHits, Evaluated, InOrder, Alike;
    var l, h := Rank(Lower(low)).value, Rank(Lower(high)).value;
    var any := Finding([], [], [], None, [], [], None);
    FindingsAreExactlyTheHits(packages, advisories, low, any);
    StillReadable(packages, advisories, l, h);
    FindingsAreExactlyTheHits(packages, advisories, high, any);
    FewerHitsInAll(packages, advisories, l, h);
  }
}
