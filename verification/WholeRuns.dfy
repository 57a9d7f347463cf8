/** Whole runs, as sequences of the transforms that make them up, and what they come to. */
module WholeRuns {
  import opened Graphs
  import opened Traces
  import opened Regions
  import opened Contraction
  import opened ControlState
  import opened Flow
  import opened Balancing
  import opened Runs
  import opened Passes
  import opened Kernels
  import opened ControlGraphs
  import opened LoopTransforms
  import opened KernelTransforms
  import opened Structuring

  // ----- steps -----

  /** A region is contracted. */
  ghost predicate RegionStepTo(r: Run, r': Run) {
    exists sub, s, t, vn :: RegionStep(r.g, r'.g, sub, s, t, vn) && r'.home == Move(r.home, sub.nodes, vn)
  }

  /** Kirchhoff's law changes a frequency. */
  ghost predicate KCLStepTo(r: Run, r': Run) {
    && Valid(r.g) && r'.home == r.home
    && exists big, least :: big in r.g.edges && KCLStep(r.g, r'.g, big, least)
  }

  /** A loop with one entrance and one exit is contracted. */
  ghost predicate LoopStepTo(r: Run, r': Run) {
    exists sub :: LoopContracted(r, sub, r')
  }

  /** Any kernel is contracted, and the probabilities out of the new node are set again. */
  ghost predicate KernelStepTo(r: Run, r': Run) {
    exists sub :: KernelContracted(r, sub, r')
  }

  /** The steps that keep this much. */
  ghost predicate Step(keeps: Keeps, r: Run, r': Run) {
    || RegionStepTo(r, r')
    || KCLStepTo(r, r')
    || (!keeps.cycles && LoopStepTo(r, r'))
    || (!keeps.cycles && !keeps.profile && KernelStepTo(r, r'))
  }

  ghost function StepOf(keeps: Keeps): (Run, Run) -> bool {
    (r: Run, r': Run) => Step(keeps, r, r')
  }

  /** Any number of steps, in any order. */
  ghost predicate Steps(keeps: Keeps, s: seq<Run>) {
    Trace(StepOf(keeps), s)
  }

  lemma RegionStepAfter(keeps: Keeps, E0: set<Edge>, r: Run, r': Run)
    requires r in Running(E0) && RegionStepTo(r, r')
    ensures r' in After(keeps, E0, r)
  {
    var sub, s, t, vn :| RegionStep(r.g, r'.g, sub, s, t, vn) && r'.home == Move(r.home, sub.nodes, vn);
    RegionAfter(E0, r, r'.g, sub, s, t, vn);
    AfterWeaker(ALL, keeps, E0, r, r');
  }

  lemma KCLStepAfter(keeps: Keeps, E0: set<Edge>, r: Run, r': Run)
    requires r in Running(E0) && KCLStepTo(r, r')
    ensures r' in After(keeps, E0, r)
  {
    var big, least :| big in r.g.edges && KCLStep(r.g, r'.g, big, least);
    KCLAfter(E0, r, r'.g, big, least);
    AfterWeaker(ALL, keeps, E0, r, r');
  }

  lemma LoopStepAfter(keeps: Keeps, E0: set<Edge>, r: Run, r': Run)
    requires r in Running(E0) && LoopStepTo(r, r') && !keeps.cycles
    ensures r' in After(keeps, E0, r)
  {
    var sub :| LoopContracted(r, sub, r');
    OneWayAfter(E0, r, r'.g, sub, r.g.nextNID);
    AfterWeaker(PROFILE, keeps, E0, r, r');
  }

  lemma KernelStepAfter(keeps: Keeps, E0: set<Edge>, r: Run, r': Run)
    requires r in Running(E0) && KernelStepTo(r, r') && !keeps.cycles && !keeps.profile
    ensures r' in After(keeps, E0, r)
  {
    var sub :| KernelContracted(r, sub, r');
    var mid :| KernelMade(r, sub, r', mid);
    KernelAfter(E0, r, mid, sub, r.g.nextNID);
    ReweighedRun(E0, Run(r'.home, mid), r.g.nextNID);
    AfterTrans(REACH, E0, r, Run(r'.home, mid), r');
  }

  lemma StepAfter(keeps: Keeps, E0: set<Edge>, r: Run, r': Run)
    requires r in Running(E0) && Step(keeps, r, r')
    ensures r' in After(keeps, E0, r)
  {
    if RegionStepTo(r, r') {
      RegionStepAfter(keeps, E0, r, r');
    } else if KCLStepTo(r, r') {
      KCLStepAfter(keeps, E0, r, r');
    } else if !keeps.cycles && LoopStepTo(r, r') {
      LoopStepAfter(keeps, E0, r, r');
    } else {
      KernelStepAfter(keeps, E0, r, r');
    }
  }

  ghost function KeptFrom(keeps: Keeps, E0: set<Edge>, r0: Run): Run -> bool {
    (r: Run) => r in After(keeps, E0, r0)
  }

  /** What every step keeps, every sequence of steps keeps. */
  lemma StepsAfter(keeps: Keeps, E0: set<Edge>, s: seq<Run>, k: nat)
    requires Steps(keeps, s) && s[0] in Running(E0) && k < |s|
    ensures s[k] in After(keeps, E0, s[0])
  {
    AfterSelf(keeps, E0, s[0]);
    forall r, r' | KeptFrom(keeps, E0, s[0])(r) && StepOf(keeps)(r, r') ensures KeptFrom(keeps, E0, s[0])(r') {
      NextAfter(keeps, E0, s[0], r, r');
    }
    TraceKeeps(StepOf(keeps), s, KeptFrom(keeps, E0, s[0]), k);
  }

  lemma NextAfter(keeps: Keeps, E0: set<Edge>, r0: Run, r: Run, r': Run)
    requires r in After(keeps, E0, r0) && Step(keeps, r, r')
    ensures r' in After(keeps, E0, r0)
  {
    StepAfter(keeps, E0, r, r');
    AfterTrans(keeps, E0, r0, r, r');
  }

  // ----- what sequences of steps come to -----

  /** The runs that start from a profile. */
  ghost predicate FromProfile(keeps: Keeps, g0: GraphState, s: seq<Run>) {
    IsProfile(g0) && Steps(keeps, s) && s[0] == Run(Identity(g0.nodes), g0)
  }

  /** The original edges from a leaf of u to a leaf of v. */
  ghost function Between(E0: set<Edge>, home: map<nat, nat>, u: nat, v: nat): set<Edge> {
    set o | o in E0 && o.src in home && o.snk in home && home[o.src] == u && home[o.snk] == v
  }

  /** Every edge between different nodes stands for exactly the profile edges between their
      leaves, and there is such an edge exactly when there are such profile edges. */
  lemma StandsFor(E0: set<Edge>, home: map<nat, nat>, g: GraphState, u: nat, v: nat)
    requires Valid(g) && Traced(E0, home, g) && u != v
    ensures Edge(u, v) in g.edges <==> Between(E0, home, u, v) != {}
    ensures Edge(u, v) in g.edges ==> Flatten(g.body[Edge(u, v)].what) == Between(E0, home, u, v)
  {
    var B := Between(E0, home, u, v);
    forall o | o in B ensures Edge(u, v) in g.edges && o in Flatten(g.body[Edge(u, v)].what) {
    }
    if Edge(u, v) in g.edges {
      var o :| o in Flatten(g.body[Edge(u, v)].what);
      assert o in B;
    }
  }

  /** From a profile graph, any sequence of region contractions, frequency rewrites and
      contractions of loops and kernels of any kind: the original nodes are partitioned by the
      current ones, journeys between different current nodes are the original ones, and no cycle
      is new. */
  lemma ReachRun(keeps: Keeps, g0: GraphState, s: seq<Run>)
    requires FromProfile(keeps, g0, s)
    ensures var r := s[|s| - 1];
      && Valid(r.g) && r.home.Keys == g0.nodes && r.home.Values == r.g.nodes
      && (forall a, b :: a in r.home && b in r.home && r.home[a] != r.home[b] ==>
            (Reach(g0.edges, a, b) <==> Reach(r.g.edges, r.home[a], r.home[b])))
      && (forall a :: a in r.home && ReachPlus(r.g.edges, r.home[a], r.home[a]) ==> ReachPlus(g0.edges, a, a))
  {
    ProfileRuns(g0);
    StepsAfter(keeps, g0.edges, s, |s| - 1);
  }

  lemma WholeRunKeeps(keeps: Keeps, g0: GraphState, s: seq<Run>)
    requires FromProfile(keeps, g0, s) && keeps.profile
    ensures var r := s[|s| - 1]; Valid(r.g) && Traced(g0.edges, r.home, r.g)
  {
    ProfileRuns(g0);
    StepsAfter(keeps, g0.edges, s, |s| - 1);
  }

  /** Without kernels that have several entrances or exits: every edge also stands for exactly the
      profile edges between its ends. */
  lemma WholeRun(keeps: Keeps, g0: GraphState, s: seq<Run>)
    requires FromProfile(keeps, g0, s) && keeps.profile
    ensures var r := s[|s| - 1];
      && Valid(r.g)
      && (forall u, v :: u != v ==> (Edge(u, v) in r.g.edges <==> Between(g0.edges, r.home, u, v) != {}))
      && (forall u, v :: u != v && Edge(u, v) in r.g.edges ==>
            Flatten(r.g.body[Edge(u, v)].what) == Between(g0.edges, r.home, u, v))
  {
    var r := s[|s| - 1];
    WholeRunKeeps(keeps, g0, s);
    forall u, v: nat | u != v
      ensures Edge(u, v) in r.g.edges <==> Between(g0.edges, r.home, u, v) != {}
      ensures Edge(u, v) in r.g.edges ==> Flatten(r.g.body[Edge(u, v)].what) == Between(g0.edges, r.home, u, v)
    {
      StandsFor(g0.edges, r.home, r.g, u, v);
    }
  }

  lemma RegionRunKeeps(g0: GraphState, s: seq<Run>)
    requires FromProfile(ALL, g0, s) && Normal(g0)
    ensures var r := s[|s| - 1];
      && Valid(r.g) && Normal(r.g) && Faithful(g0.edges, r.g.edges, r.home) && r.home.Values == r.g.nodes
      && (forall e {:trigger e in g0.edges} :: e in g0.edges ==> e.src in r.home)
  {
    ProfileRuns(g0);
    StepsAfter(ALL, g0.edges, s, |s| - 1);
  }

  /** With regions and frequency rewrites only: the graph has a cycle exactly when the profile had
      one, and every node's probabilities still sum to one. */
  lemma RegionRun(g0: GraphState, s: seq<Run>)
    requires FromProfile(ALL, g0, s) && Normal(g0)
    ensures var r := s[|s| - 1];
      && Valid(r.g)
      && (Cyclic(g0.edges) <==> Cyclic(r.g.edges))
      && (forall n :: n in r.g.nodes && r.g.succs[n] != {} ==> WeightSum(r.g.succs[n], r.g.body) == 1.0)
  {
    var r := s[|s| - 1];
    RegionRunKeeps(g0, s);
    FaithfulKeepsCycles(g0.edges, NetOf(r.g), r.home);
    forall n | n in r.g.nodes && r.g.succs[n] != {} ensures WeightSum(r.g.succs[n], r.g.body) == 1.0 {
      OutgoingSumToOne(r.g, n);
    }
  }

  /** When the profile is reached from one node, every graph a run comes to is reached from where
      that node is now. */
  lemma RootedRun(keeps: Keeps, g0: GraphState, s: seq<Run>, root: nat)
    requires FromProfile(keeps, g0, s) && root in g0.nodes && forall n :: n in g0.nodes ==> Reach(g0.edges, root, n)
    ensures var r := s[|s| - 1];
      root in r.home && forall n :: n in r.g.nodes ==> Reach(r.g.edges, r.home[root], n)
  {
    ReachRun(keeps, g0, s);
    var r := s[|s| - 1];
    forall n | n in r.g.nodes ensures Reach(r.g.edges, r.home[root], n) {
      assert n in r.home.Values;
      var b :| b in r.home && r.home[b] == n;
      assert Reach(g0.edges, root, b);
      ReachRefl(r.g.edges, n);
    }
  }

  // ----- what the program does is such a sequence -----

  /** b comes from a by steps that keep this much. */
  ghost predicate StepsTo(keeps: Keeps, a: Run, b: Run) {
    exists s :: Leads(StepOf(keeps), s, a, b)
  }

  lemma StepsToSelf(keeps: Keeps, a: Run)
    ensures StepsTo(keeps, a, a)
  {
    LeadsOne(StepOf(keeps), a);
  }

  lemma StepsToTrans(keeps: Keeps, a: Run, b: Run, c: Run)
    requires StepsTo(keeps, a, b) && StepsTo(keeps, b, c)
    ensures StepsTo(keeps, a, c)
  {
    var s :| Leads(StepOf(keeps), s, a, b);
    var t :| Leads(StepOf(keeps), t, b, c);
    LeadsOnTo(StepOf(keeps), s, t, a, b, c);
  }

  lemma StepsToOne(keeps: Keeps, a: Run, b: Run)
    requires Step(keeps, a, b)
    ensures StepsTo(keeps, a, b)
  {
    LeadsOne(StepOf(keeps), a);
    LeadsOn(StepOf(keeps), [a], a, a, b);
  }

  lemma StepsToWeaker(keeps: Keeps, less: Keeps, a: Run, b: Run)
    requires StepsTo(keeps, a, b) && (less.profile ==> keeps.profile) && (less.cycles ==> keeps.cycles)
    ensures StepsTo(less, a, b)
  {
    var s :| Leads(StepOf(keeps), s, a, b);
    forall x, y | StepOf(keeps)(x, y) ensures StepOf(less)(x, y) {
      StepWeaker(keeps, less, x, y);
    }
    LeadsAs(StepOf(keeps), StepOf(less), s, a, b);
  }

  lemma StepWeaker(keeps: Keeps, less: Keeps, a: Run, b: Run)
    requires Step(keeps, a, b) && (less.profile ==> keeps.profile) && (less.cycles ==> keeps.cycles)
    ensures Step(less, a, b)
  {
  }

  ghost function ReachedFrom(keeps: Keeps, a: Run): Run -> bool {
    (x: Run) => StepsTo(keeps, a, x)
  }

  /** Things done one after the other, each of them by steps, are done by steps. */
  lemma AllBySteps<L(!new)>(keeps: Keeps, step: (Run, L, Run) -> bool, taken: seq<L>, a: Run, b: Run)
    requires By(step, taken, a, b) && forall x, l, y :: step(x, l, y) ==> StepsTo(keeps, x, y)
    ensures StepsTo(keeps, a, b)
  {
    StepsToSelf(keeps, a);
    forall x, l, y | ReachedFrom(keeps, a)(x) && step(x, l, y) ensures ReachedFrom(keeps, a)(y) {
      StepsToTrans(keeps, a, x, y);
    }
    ByKeeps(step, taken, a, b, ReachedFrom(keeps, a));
  }

  lemma PassBySteps(full: bool, root: nat, s: seq<Run>, a: Run, b: Run)
    requires WholePass(full, root, s, a, b)
    ensures StepsTo(ALL, a, b)
  {
    forall x, y | PassStep(full)(x, y) ensures StepOf(ALL)(x, y) {
      var n, sub, t, vn :| Contracts(full, x, y, n, sub, t, vn);
      assert RegionStepTo(x, y);
    }
    LeadsAs(PassStep(full), StepOf(ALL), s, a, b);
  }

  lemma LawIsStep(home: map<nat, nat>, g: GraphState, h: GraphState)
    requires BalanceStep()(g, h)
    ensures StepOf(ALL)(Run(home, g), Run(home, h))
  {
    var n, big, least :| Evens(g, h, n, big, least);
    assert KCLStepTo(Run(home, g), Run(home, h));
  }

  lemma LawBySteps(s: seq<GraphState>, home: map<nat, nat>, g: GraphState, h: GraphState, done: set<nat>)
    requires BalancePass(s, g, h, done)
    ensures StepsTo(ALL, Run(home, g), Run(home, h))
  {
    LawTrace(s, home, g, h);
  }

  lemma LawTrace(s: seq<GraphState>, home: map<nat, nat>, g: GraphState, h: GraphState)
    requires Leads(BalanceStep(), s, g, h)
    ensures StepsTo(ALL, Run(home, g), Run(home, h))
  {
    var see := (x: GraphState) => Run(home, x);
    forall x, y | BalanceStep()(x, y) ensures StepOf(ALL)(see(x), see(y)) {
      LawIsStep(home, x, y);
    }
    var t := LeadsSeen(BalanceStep(), StepOf(ALL), s, g, h, see);
  }

  lemma LoopsBySteps(loops: seq<Net>, a: Run, b: Run)
    requires By(LoopStep(), loops, a, b)
    ensures StepsTo(PROFILE, a, b)
  {
    forall x, sub, y | LoopStep()(x, sub, y) ensures StepsTo(PROFILE, x, y) {
      assert LoopContracted(x, sub, y);
      StepsToOne(PROFILE, x, y);
    }
    AllBySteps(PROFILE, LoopStep(), loops, a, b);
  }

  lemma RoundBySteps(root: nat, how: Search, a: Run, d: Round, b: Run)
    requires RoundMade(root, how, a, d, b)
    ensures StepsTo(PROFILE, a, b)
  {
    PassBySteps(true, root, d.pass, a, d.passed);
    StepsToWeaker(ALL, PROFILE, a, d.passed);
    LoopsBySteps(d.loops, d.passed, d.contracted);
    LawBySteps(d.law, b.home, d.contracted.g, b.g, b.g.nodes);
    StepsToWeaker(ALL, PROFILE, d.contracted, b);
    StepsToTrans(PROFILE, a, d.passed, d.contracted);
    StepsToTrans(PROFILE, a, d.contracted, b);
  }

  /** ApplyCFGTransforms contracts regions and loops with one way in and one way out, and rewrites
      frequencies; it does nothing else. */
  lemma AppliedBySteps(root: nat, how: Search, segmentations: bool, a: Run, app: Application, b: Run)
    requires Applied(root, how, segmentations, a, app, b)
    ensures StepsTo(PROFILE, a, b)
  {
    PreludeBySteps(root, segmentations, a, app.prelude, app.ready);
    forall x, d, y | RoundStep(root, how)(x, d, y) ensures StepsTo(PROFILE, x, y) {
      RoundBySteps(root, how, x, d, y);
    }
    AllBySteps(PROFILE, RoundStep(root, how), app.rounds, app.ready, b);
    StepsToTrans(PROFILE, a, app.ready, b);
  }

  lemma PreludeBySteps(root: nat, segmentations: bool, a: Run, p: Prelude, b: Run)
    requires PreludeMade(root, segmentations, a, p, b)
    ensures StepsTo(PROFILE, a, b)
  {
    if segmentations {
      StepsToSelf(ALL, a);
    } else {
      LawBySteps(p.law, a.home, a.g, p.balanced.g, a.g.nodes);
    }
    PassBySteps(false, root, p.pass, p.balanced, b);
    StepsToTrans(ALL, a, p.balanced, b);
    StepsToWeaker(ALL, PROFILE, a, b);
  }

  lemma TakingBySteps(taken: seq<Net>, a: Run, b: Run)
    requires By(TakeStep(), taken, a, b)
    ensures StepsTo(REACH, a, b)
  {
    forall x, sub, y | TakeStep()(x, sub, y) ensures StepsTo(REACH, x, y) {
      assert KernelContracted(x, sub, y);
      StepsToOne(REACH, x, y);
    }
    AllBySteps(REACH, TakeStep(), taken, a, b);
  }

  lemma IterationBySteps(c: Setting, a: Run, it: Iteration, b: Run)
    requires IterationMade(c, a, it, b)
    ensures StepsTo(REACH, a, b)
  {
    TakingBySteps(it.taken, a, it.contracted);
    if c.applyTransforms && Cyclic(it.contracted.g.edges) {
      AppliedBySteps(c.root, c.how, true, it.contracted, it.app, b);
      StepsToWeaker(PROFILE, REACH, it.contracted, b);
      StepsToTrans(REACH, a, it.contracted, b);
    }
  }

  /** The search for kernels contracts these as well. */
  lemma SearchBySteps(c: Setting, its: seq<Iteration>, a: Run, b: Run)
    requires By(IterationStep(c), its, a, b)
    ensures StepsTo(REACH, a, b)
  {
    forall x, it, y | IterationStep(c)(x, it, y) ensures StepsTo(REACH, x, y) {
      IterationBySteps(c, x, it, y);
    }
    AllBySteps(REACH, IterationStep(c), its, a, b);
  }

  /** So whatever ApplyCFGTransforms makes of a profile, an edge between different nodes stands for
      exactly the profile edges between their leaves, and is there exactly when these are. */
  lemma AppliedToProfile(root: nat, how: Search, segmentations: bool, g0: GraphState, app: Application, b: Run)
    requires IsProfile(g0) && Applied(root, how, segmentations, Run(Identity(g0.nodes), g0), app, b)
    ensures Valid(b.g)
    ensures forall u, v :: u != v ==> (Edge(u, v) in b.g.edges <==> Between(g0.edges, b.home, u, v) != {})
    ensures forall u, v :: u != v && Edge(u, v) in b.g.edges ==>
      Flatten(b.g.body[Edge(u, v)].what) == Between(g0.edges, b.home, u, v)
  {
    var a := Run(Identity(g0.nodes), g0);
    AppliedBySteps(root, how, segmentations, a, app, b);
    var s :| Leads(StepOf(PROFILE), s, a, b);
    WholeRun(PROFILE, g0, s);
  }

  /** And whatever is done before and by the search for kernels: the original nodes are partitioned,
      journeys between different nodes are the original ones, and no cycle is new. */
  lemma SearchOfProfile(root: nat, how: Search, segmentations: bool, g0: GraphState, app: Application, a: Run,
                        c: Setting, its: seq<Iteration>, b: Run)
    requires IsProfile(g0) && Applied(root, how, segmentations, Run(Identity(g0.nodes), g0), app, a)
    requires By(IterationStep(c), its, a, b)
    ensures Valid(b.g) && b.home.Keys == g0.nodes && b.home.Values == b.g.nodes
    ensures forall x, y :: x in b.home && y in b.home && b.home[x] != b.home[y] ==>
      (Reach(g0.edges, x, y) <==> Reach(b.g.edges, b.home[x], b.home[y]))
    ensures forall x :: x in b.home && ReachPlus(b.g.edges, b.home[x], b.home[x]) ==> ReachPlus(g0.edges, x, x)
  {
    var r0 := Run(Identity(g0.nodes), g0);
    AppliedBySteps(root, how, segmentations, r0, app, a);
    StepsToWeaker(PROFILE, REACH, r0, a);
    SearchBySteps(c, its, a, b);
    StepsToTrans(REACH, r0, a, b);
    var s :| Leads(StepOf(REACH), s, r0, b);
    ReachRun(REACH, g0, s);
  }
}
