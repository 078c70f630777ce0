/** The dependencies between the crates of the workspace, against the tables that
    declare them. */
module DependencyGate {

  datatype Crate =
    | Contracts | Observability | Domain | Capabilities | Core | CoreServer | Worker | NodeAgent
    | ConversionRunner | Workspace | InstallerContracts | InstallerController | Bootstrap | ReleaseTool
    | ImageContracts | Firstboot | Oie | ImageBuilder | SystemContracts | SystemClient | SystemService
    | UpdateContracts | UpdateRepository | UpdateEngine | SessionService
    | Other(name: string)

  type Graph = map<Crate, set<Crate>>

  function Of(g: Graph, c: Crate): set<Crate> {
    if c in g then g[c] else {}
  }

  predicate Edge(g: Graph, from: Crate, to: Crate) { to in Of(g, from) }

  /** What each crate may depend on in production. */
  function Allowed(c: Crate): set<Crate> {
    match c
    case Contracts => {}
    case Observability => {}
    case Domain => {Contracts}
    case Capabilities => {Contracts}
    case Core => {Capabilities, Contracts, Domain, Observability}
    case CoreServer => {Contracts, Core, Domain, Observability, SystemContracts}
    case Worker => {Contracts, Core, Observability}
    case NodeAgent => {Contracts, Observability}
    case ConversionRunner => {Observability}
    case Workspace => {Contracts, Observability}
    case InstallerContracts => {Contracts}
    case InstallerController => {Contracts, InstallerContracts}
    case Bootstrap => {Contracts, InstallerContracts}
    case ReleaseTool => {Contracts, InstallerContracts, UpdateContracts, UpdateRepository}
    case ImageContracts => {InstallerContracts}
    case Firstboot => {ImageContracts, InstallerContracts}
    case Oie => {ImageContracts, InstallerContracts}
    case ImageBuilder => {ImageContracts, InstallerContracts}
    case SystemContracts => {UpdateContracts}
    case SystemClient => {SystemContracts}
    case SystemService => {SystemContracts, SystemClient, UpdateContracts}
    case UpdateContracts => {}
    case UpdateRepository => {UpdateContracts, InstallerContracts}
    case UpdateEngine => {UpdateContracts, UpdateRepository}
    case SessionService => {SystemContracts}
    case Other(_) => {}
  }

  /** What each crate may depend on in its tests. */
  function AllowedInTests(c: Crate): set<Crate> {
    match c
    case Core => {Core}
    case CoreServer => {Core, InstallerContracts}
    case Workspace => {Observability, Core, CoreServer}
    case Firstboot => {ImageContracts}
    case Oie => {ImageContracts}
    case ImageBuilder => {ImageContracts}
    case _ => {}
  }

  function Declared(): set<Crate> {
    { Contracts, Observability, Domain, Capabilities, Core, CoreServer, Worker, NodeAgent, ConversionRunner,
      Workspace, InstallerContracts, InstallerController, Bootstrap, ReleaseTool, ImageContracts, Firstboot, Oie,
      ImageBuilder, SystemContracts, SystemClient, SystemService, UpdateContracts, UpdateRepository, UpdateEngine,
      SessionService }
  }

  /** The two tables. */
  function Normal(): Graph { map c | c in Declared() :: Allowed(c) }

  function Dev(): Graph {
    map c | c in {Core, CoreServer, Workspace, Firstboot, Oie, ImageBuilder} :: AllowedInTests(c)
  }

  datatype Problem =
    | Promoted(crate: Crate, target: Crate)
    | New(production: bool, crate: Crate, target: Crate)
    | Gone(production: bool, crate: Crate, target: Crate)
    | Build(crate: Crate, target: Crate)

  predicate Distinct(ps: seq<Problem>) { forall i, j :: 0 <= i < j < |ps| ==> ps[i] != ps[j] }

  /** A table is broken by an edge it does not have, or by one it has in vain. */
  predicate Breaks(p: Problem, production: bool, actual: Graph, expected: Graph) {
    match p
    case New(q, c, t) => q == production && Edge(actual, c, t) && !Edge(expected, c, t)
    case Gone(q, c, t) => q == production && Edge(expected, c, t) && !Edge(actual, c, t)
    case Promoted(_, _) => false
    case Build(_, _) => false
  }

  /** One problem for each target. */
  method Each(crate: Crate, targets: set<Crate>, problem: Crate -> Problem) returns (problems: seq<Problem>)
    requires forall t :: problem(t).crate == crate && problem(t).target == t
    ensures Distinct(problems) && forall p :: p in problems <==> p.target in targets && p == problem(p.target)
  {
    problems := [];
    var todo := targets;
    while todo != {}
      invariant todo <= targets && Distinct(problems)
      invariant forall p :: p in problems <==> p.target in targets - todo && p == problem(p.target)
      decreases todo
    {
      var t :| t in todo;
      todo := todo - {t};
      problems := problems + [problem(t)];
    }
  }

  method Compare(production: bool, actual: Graph, expected: Graph) returns (problems: seq<Problem>)
    ensures Distinct(problems) && forall p :: p in problems <==> Breaks(p, production, actual, expected)
  {
    problems := [];
    var all := actual.Keys + expected.Keys;
    var todo := all;
    while todo != {}
      invariant todo <= all && Distinct(problems)
      invariant forall p :: p in problems <==> p.crate in all - todo && Breaks(p, production, actual, expected)
      decreases todo
    {
      var crate :| crate in todo;
      todo := todo - {crate};
      var extra := Each(crate, Of(actual, crate) - Of(expected, crate), t => New(production, crate, t));
      var missing := Each(crate, Of(expected, crate) - Of(actual, crate), t => Gone(production, crate, t));
      forall p: Problem ensures p in extra + missing <==> p.crate == crate && Breaks(p, production, actual, expected) {
      }
      problems := problems + (extra + missing);
    }
    forall p: Problem | Breaks(p, production, actual, expected) ensures p in problems {
      assert p.crate in all;
    }
  }

  predicate IsPromoted(normal: Graph, c: Crate, t: Crate) {
    Edge(Dev(), c, t) && !Edge(Normal(), c, t) && Edge(normal, c, t)
  }

  function WithoutPromoted(normal: Graph): Graph {
    map c | c in normal :: set t | t in normal[c] && !IsPromoted(normal, c, t)
  }

  /** The promoted edges, which are looked for first. */
  method FindPromoted(normal: Graph) returns (problems: seq<Problem>)
    ensures Distinct(problems)
    ensures forall p :: p in problems <==> p.Promoted? && IsPromoted(normal, p.crate, p.target)
  {
    hide *;
    problems := [];
    NothingIsDistinct();
    var todo := Dev().Keys;
    while todo != {}
      invariant todo <= Dev().Keys && Distinct(problems)
      invariant forall p :: p in problems <==>
                  p.crate in Dev().Keys - todo && p.Promoted? && IsPromoted(normal, p.crate, p.target)
      decreases todo
    {
      var crate :| crate in todo;
      todo := todo - {crate};
      var promoted := set t | t in Dev()[crate] && t !in Of(Normal(), crate) && t in Of(normal, crate);
      PromotedFrom(normal, crate, promoted);
      var here := Each(crate, promoted, t => Promoted(crate, t));
      DistinctTogether(problems, here);
      problems := problems + here;
    }
    forall p: Problem | p.Promoted? && IsPromoted(normal, p.crate, p.target) ensures p.crate in Dev().Keys {
      DevEdge(normal, p.crate, p.target);
    }
  }

  lemma NothingIsDistinct()
    ensures Distinct([])
  {
  }

  lemma PromotedFrom(normal: Graph, crate: Crate, promoted: set<Crate>)
    requires crate in Dev() && promoted == set t | t in Dev()[crate] && t !in Of(Normal(), crate) && t in Of(normal, crate)
    ensures forall t :: t in promoted <==> IsPromoted(normal, crate, t)
  {
  }

  lemma DevEdge(normal: Graph, c: Crate, t: Crate)
    requires IsPromoted(normal, c, t)
    ensures c in Dev().Keys
  {
  }

  lemma DistinctTogether(a: seq<Problem>, b: seq<Problem>)
    requires Distinct(a) && Distinct(b) && forall p :: p in a ==> p !in b
    ensures Distinct(a + b)
  {
    forall i, j | 0 <= i < j < |a + b| ensures (a + b)[i] != (a + b)[j] {
      if i < |a| <= j { assert a[i] in a && b[j - |a|] in b; }
    }
  }

  /** What the gate says of the three graphs. */
  ghost predicate Reported(p: Problem, normal: Graph, dev: Graph, build: Graph) {
    match p
    case Promoted(c, t) => IsPromoted(normal, c, t)
    case New(true, c, t) => Edge(normal, c, t) && !Edge(Normal(), c, t) && !IsPromoted(normal, c, t)
    case New(false, c, t) => Edge(dev, c, t) && !Edge(Dev(), c, t)
    case Gone(true, c, t) => Edge(Normal(), c, t) && !Edge(normal, c, t)
    case Gone(false, c, t) => Edge(Dev(), c, t) && !Edge(dev, c, t)
    case Build(c, t) => Edge(build, c, t)
  }

  method Check(normal: Graph, dev: Graph, build: Graph) returns (problems: seq<Problem>)
    ensures Distinct(problems) && forall p :: p in problems <==> Reported(p, normal, dev, build)
  {
    hide *;
    var promoted := FindPromoted(normal);
    var production := Compare(true, WithoutPromoted(normal), Normal());
    var tests := Compare(false, dev, Dev());
    var built := FindBuilt(build);
    forall p: Problem ensures p in promoted + production + tests + built <==> Reported(p, normal, dev, build) {
      ReportedByKind(p, normal, dev, build);
    }
    forall p: Problem ensures p in promoted ==> p !in production && p !in tests && p !in built {
      KindsApart(p, normal, dev);
    }
    forall p: Problem ensures p in production ==> p !in tests && p !in built { KindsApart(p, normal, dev); }
    forall p: Problem ensures p in tests ==> p !in built { KindsApart(p, normal, dev); }
    DistinctTogether(promoted, production);
    DistinctTogether(promoted + production, tests);
    DistinctTogether(promoted + production + tests, built);
    problems := promoted + production + tests + built;
  }

  method FindBuilt(build: Graph) returns (problems: seq<Problem>)
    ensures Distinct(problems) && forall p :: p in problems <==> p.Build? && Edge(build, p.crate, p.target)
  {
    problems := [];
    var todo := build.Keys;
    while todo != {}
      invariant todo <= build.Keys && Distinct(problems)
      invariant forall p :: p in problems <==> p.crate in build.Keys - todo && p.Build? && Edge(build, p.crate, p.target)
      decreases todo
    {
      var crate :| crate in todo;
      todo := todo - {crate};
      var here := Each(crate, build[crate], t => Build(crate, t));
      problems := problems + here;
    }
  }

  lemma KindsApart(p: Problem, normal: Graph, dev: Graph)
    ensures Breaks(p, true, WithoutPromoted(normal), Normal()) ==> !Breaks(p, false, dev, Dev())
    ensures p.Promoted? || p.Build? ==> !Breaks(p, true, WithoutPromoted(normal), Normal()) && !Breaks(p, false, dev, Dev())
  {
    hide Edge, Normal, Dev;
  }

  lemma ReportedByKind(p: Problem, normal: Graph, dev: Graph, build: Graph)
    ensures Reported(p, normal, dev, build)
       <==> || (p.Promoted? && IsPromoted(normal, p.crate, p.target))
            || Breaks(p, true, WithoutPromoted(normal), Normal())
            || Breaks(p, false, dev, Dev())
            || (p.Build? && Edge(build, p.crate, p.target))
  {
    hide Edge, IsPromoted, Normal, Dev;
    if p.New? || p.Gone? { LessPromoted(normal, p.crate, p.target); }
  }

  lemma LessPromoted(normal: Graph, c: Crate, t: Crate)
    ensures Edge(WithoutPromoted(normal), c, t) <==> Edge(normal, c, t) && !IsPromoted(normal, c, t)
    ensures Edge(Normal(), c, t) ==> !IsPromoted(normal, c, t)
  {
    hide IsPromoted, Normal, Dev, Edge, WithoutPromoted;
    PromotedIsNotNormal(normal, c, t);
    EdgeOfRest(normal, c, t);
  }

  lemma EdgeOfRest(normal: Graph, c: Crate, t: Crate)
    ensures Edge(WithoutPromoted(normal), c, t) <==> Edge(normal, c, t) && !IsPromoted(normal, c, t)
  {
    hide IsPromoted, Normal, Dev;
    var rest := WithoutPromoted(normal);
    if c in normal {
      assert rest[c] == set u | u in normal[c] && !IsPromoted(normal, c, u);
    }
  }

  lemma PromotedIsNotNormal(normal: Graph, c: Crate, t: Crate)
    ensures IsPromoted(normal, c, t) ==> !Edge(Normal(), c, t)
  {
    hide Edge, Normal, Dev;
  }

  // ── What the report means

  ghost predicate SameEdges(g: Graph, h: Graph) { forall c, t :: Edge(g, c, t) <==> Edge(h, c, t) }

  ghost predicate Clean(normal: Graph, dev: Graph, build: Graph) {
    forall p :: !Reported(p, normal, dev, build)
  }

  /** The gate is silent exactly when production and tests have the edges of their
      tables and no more, and builds have none. */
  lemma SilentExactlyWhenEqual(normal: Graph, dev: Graph, build: Graph)
    ensures Clean(normal, dev, build)
       <==> SameEdges(normal, Normal()) && SameEdges(dev, Dev()) && forall c, t :: !Edge(build, c, t)
  {
    hide Edge, Normal, Dev;
    if Clean(normal, dev, build) {
      forall c, t ensures Edge(normal, c, t) <==> Edge(Normal(), c, t) {
        assert !Reported(Promoted(c, t), normal, dev, build);
        assert !Reported(New(true, c, t), normal, dev, build);
        assert !Reported(Gone(true, c, t), normal, dev, build);
      }
      forall c, t ensures Edge(dev, c, t) <==> Edge(Dev(), c, t) {
        assert !Reported(New(false, c, t), normal, dev, build);
        assert !Reported(Gone(false, c, t), normal, dev, build);
      }
      forall c, t ensures !Edge(build, c, t) {
        assert !Reported(Build(c, t), normal, dev, build);
      }
    }
  }

  // ── The tables, read the other way

  /** An edge of a graph. */
  lemma EdgesAreTheGraphs(g: Graph, c: Crate, t: Crate)
    ensures Edge(g, c, t) <==> c in g && t in g[c]
  {
  }

  /** Who may be made of a crate in production. */
  function UsedBy(t: Crate): set<Crate> {
    match t
    case Contracts => {Domain, Capabilities, Core, CoreServer, Worker, NodeAgent, Workspace, InstallerContracts,
      InstallerController, Bootstrap, ReleaseTool}
    case Observability => {Core, CoreServer, Worker, NodeAgent, ConversionRunner, Workspace}
    case Domain => {Core, CoreServer}
    case Capabilities => {Core}
    case Core => {CoreServer, Worker}
    case InstallerContracts => {InstallerController, Bootstrap, ReleaseTool, ImageContracts, Firstboot, Oie,
      ImageBuilder, UpdateRepository}
    case ImageContracts => {Firstboot, Oie, ImageBuilder}
    case SystemContracts => {CoreServer, SystemClient, SystemService, SessionService}
    case SystemClient => {SystemService}
    case UpdateContracts => {ReleaseTool, SystemContracts, SystemService, UpdateRepository, UpdateEngine}
    case UpdateRepository => {ReleaseTool, UpdateEngine}
    case _ => {}
  }

  /** Who may use a crate in tests. */
  function UsedInTestsBy(t: Crate): set<Crate> {
    match t
    case Observability => {Workspace}
    case Core => {Core, CoreServer, Workspace}
    case CoreServer => {Workspace}
    case InstallerContracts => {CoreServer}
    case ImageContracts => {Firstboot, Oie, ImageBuilder}
    case _ => {}
  }

  lemma AllowedByUse(c: Crate, t: Crate)
    ensures t in Allowed(c) <==> c in UsedBy(t)
  {
    hide *;
    LowByUse(c, t);
    MiddleByUse(c, t);
    HighByUse(c, t);
    ImageByUse(c, t);
    assert Height(c) <= 1 || Height(c) == 2 || Height(c) > 2;
  }

  lemma LowByUse(c: Crate, t: Crate)
    ensures Height(c) <= 1 ==> (t in Allowed(c) <==> c in UsedBy(t))
  {
  }

  lemma MiddleByUse(c: Crate, t: Crate)
    ensures Height(c) == 2 ==> (t in Allowed(c) <==> c in UsedBy(t))
  {
  }

  lemma HighByUse(c: Crate, t: Crate)
    ensures Height(c) > 2 && c !in {Firstboot, Oie, ImageBuilder} ==> (t in Allowed(c) <==> c in UsedBy(t))
  {
  }

  lemma ImageByUse(c: Crate, t: Crate)
    ensures c in {Firstboot, Oie, ImageBuilder} ==> (t in Allowed(c) <==> c in UsedBy(t))
  {
  }

  lemma AllowedInTestsByUse(c: Crate, t: Crate)
    ensures t in AllowedInTests(c) <==> c in UsedInTestsBy(t)
  {
  }

  lemma DeclaredIsEvery(c: Crate)
    ensures c in Declared() <==> !c.Other?
    ensures c !in {Core, CoreServer, Workspace, Firstboot, Oie, ImageBuilder} ==> AllowedInTests(c) == {}
    ensures c.Other? ==> Allowed(c) == {}
  {
  }

  /** The tables are these: each crate may be used by those and by no other, and a
      crate that no table names may use none. */
  lemma TablesByUse(c: Crate, t: Crate)
    ensures Edge(Normal(), c, t) <==> c in UsedBy(t)
    ensures Edge(Dev(), c, t) <==> c in UsedInTestsBy(t)
  {
    hide Declared, Allowed, AllowedInTests, UsedBy, UsedInTestsBy;
    DeclaredIsEvery(c);
    AllowedByUse(c, t);
    AllowedInTestsByUse(c, t);
  }

  /** The edges of a graph, as it holds them, are those of the table. */
  ghost predicate IsUsedAs(g: Graph, inTests: bool) {
    forall c: Crate, t: Crate :: (c in g && t in g[c]) <==> c in (if inTests then UsedInTestsBy(t) else UsedBy(t))
  }

  lemma SameAsUsed(g: Graph, inTests: bool)
    ensures IsUsedAs(g, inTests) <==> SameEdges(g, if inTests then Dev() else Normal())
  {
    hide Edge, Normal, Dev, UsedBy, UsedInTestsBy;
    forall c: Crate, t: Crate
      ensures Edge(g, c, t) <==> c in g && t in g[c]
      ensures Edge(Normal(), c, t) <==> c in UsedBy(t)
      ensures Edge(Dev(), c, t) <==> c in UsedInTestsBy(t)
    {
      EdgesAreTheGraphs(g, c, t);
      TablesByUse(c, t);
    }
  }

  /** What silence means, crate by crate: production and tests are as the tables say
      they are used, and builds use nothing. */
  lemma SilentByUse(normal: Graph, dev: Graph, build: Graph)
    ensures Clean(normal, dev, build) <==> IsUsedAs(normal, false) && IsUsedAs(dev, true) && NoEdges(build)
  {
    hide Edge, Normal, Dev, Clean, IsUsedAs, SameEdges;
    SilentExactlyWhenEqual(normal, dev, build);
    SameAsUsed(normal, false);
    SameAsUsed(dev, true);
    forall c: Crate, t: Crate ensures Edge(build, c, t) <==> c in build && t in build[c] { EdgesAreTheGraphs(build, c, t); }
    assert NoEdges(build) <==> forall c, t :: !Edge(build, c, t);
  }

  predicate NoEdges(g: Graph) { forall c <- g :: g[c] == {} }

  function Times(p: Problem, problems: seq<Problem>): nat {
    multiset(problems)[p]
  }

  /** Every production edge outside its table is reported exactly once: as
      promoted, if the tests have it, and as new otherwise. */
  lemma EachEdgeReportedOnce(normal: Graph, dev: Graph, build: Graph, problems: seq<Problem>, c: Crate, t: Crate)
    requires Distinct(problems) && forall p :: p in problems <==> Reported(p, normal, dev, build)
    requires Edge(normal, c, t) && !Edge(Normal(), c, t)
    ensures Times(Promoted(c, t), problems) + Times(New(true, c, t), problems) == 1
    ensures Times(Promoted(c, t), problems) == 1 <==> Edge(Dev(), c, t)
  {
    hide Edge, Normal, Dev;
    OnceEach(Promoted(c, t), problems);
    OnceEach(New(true, c, t), problems);
  }

  lemma {:induction false} OnceEach(p: Problem, problems: seq<Problem>)
    requires Distinct(problems)
    ensures Times(p, problems) == if p in problems then 1 else 0
  {
    if problems != [] {
      var rest := problems[1..];
      OnceEach(p, rest);
      assert problems == [problems[0]] + rest;
      assert problems[0] !in rest;
    }
  }

  // ── Paths

  predicate IsPath(g: Graph, path: seq<Crate>) {
    path != [] && forall i :: 0 <= i < |path| - 1 ==> Edge(g, path[i], path[i + 1])
  }

  /** How far each crate stands above those that depend on nothing. */
  function Height(c: Crate): nat {
    match c
    case Contracts | Observability | UpdateContracts => 0
    case Domain | Capabilities | NodeAgent | ConversionRunner | Workspace | InstallerContracts | SystemContracts => 1
    case Core | InstallerController | Bootstrap | UpdateRepository | ImageContracts | SystemClient | SessionService => 2
    case CoreServer | Worker | ReleaseTool | Firstboot | Oie | ImageBuilder | SystemService | UpdateEngine => 3
    case Other(_) => 0
  }

  lemma EdgesGoDown(from: Crate, to: Crate)
    requires Edge(Normal(), from, to)
    ensures Height(to) < Height(from)
  {
    hide Declared;
  }

  /** What the Workspace may be made of. */
  predicate BelowWorkspace(c: Crate) { c == Workspace || c == Contracts || c == Observability }

  /** What holds, or stands on, the authority of the Core. */
  predicate HoldsCore(c: Crate) { c == Core || c == CoreServer || c == Worker }

  lemma EdgesKeepApart(from: Crate, to: Crate)
    requires Edge(Normal(), from, to)
    ensures BelowWorkspace(from) ==> BelowWorkspace(to)
    ensures HoldsCore(to) ==> HoldsCore(from)
  {
    hide Declared;
  }

  lemma {:induction false} PathsGoDown(g: Graph, path: seq<Crate>)
    requires SameEdges(g, Normal()) && IsPath(g, path)
    ensures |path| > 1 ==> Height(path[|path| - 1]) < Height(path[0])
    ensures BelowWorkspace(path[0]) ==> BelowWorkspace(path[|path| - 1])
    ensures HoldsCore(path[|path| - 1]) ==> HoldsCore(path[0])
    decreases |path|
  {
    hide Edge, Height, BelowWorkspace, HoldsCore, Normal;
    if |path| > 1 {
      var front := path[..|path| - 1];
      var last := front[|front| - 1];
      assert IsPath(g, front);
      PathsGoDown(g, front);
      assert Edge(g, path[|path| - 2], path[|path| - 2 + 1]);
      EdgesGoDown(last, path[|path| - 1]);
      EdgesKeepApart(last, path[|path| - 1]);
    }
  }

  /** In a production graph that passes there is no cycle; from the Workspace
      there is no path to the Core, its domain or its server, and only the
      server and the worker reach the Core. */
  lemma PassingGraphKeepsTheBoundary(normal: Graph, dev: Graph, build: Graph, path: seq<Crate>)
    requires Clean(normal, dev, build) && IsPath(normal, path)
    ensures |path| > 1 ==> path[0] != path[|path| - 1]
    ensures path[0] == Workspace ==> path[|path| - 1] !in {Core, Domain, CoreServer}
    ensures path[|path| - 1] == Core ==> path[0] in {Core, CoreServer, Worker}
  {
    hide Edge, Clean, SameEdges, IsPath, Normal, Dev;
    SilentExactlyWhenEqual(normal, dev, build);
    PathsGoDown(normal, path);
  }
}
