/** The outer loops: ApplyCFGTransforms and FindMLCycles. */
module Structuring {
  import opened Graphs
  import opened Sets
  import opened Traces
  import opened CycleSearch
  import opened Regions
  import opened Contraction
  import opened ControlState
  import opened Flow
  import opened Balancing
  import opened Runs
  import opened Passes
  import opened Kernels
  import opened ControlGraphs
  import opened LoopTransforms
  import opened KernelSelection
  import opened KernelTransforms

  /** Nothing is left to do: from the first node on there is no chain, no diamond and no enclosed
      region, no cycle looked up is a low-frequency loop, and frequencies are balanced. */
  ghost predicate NothingLeft(g: GraphState, first: nat, how: Search) {
    && Valid(g) && Balanced(g)
    && first in g.nodes && QuietFrom(g, first, true)
    && forall n {:trigger n in g.nodes} :: n in g.nodes ==> n in DealtWith(g, how, [])
  }

  ghost predicate QuietFrom(g: GraphState, first: nat, full: bool) {
    forall n :: Reach(g.edges, first, n) ==> n in Quiet(g, full)
  }

  /** What the transforms may leave of g, with the first node where it is then: balanced, and either
      smaller or with nothing left to do. */
  ghost function Simplified(g: GraphState, first: nat, how: Search): iset<GraphState> {
    iset h: GraphState | Balanced(h) && (AsLarge(h, g) ==> NothingLeft(h, first, how))
  }

  predicate AsLarge(g: GraphState, h: GraphState) {
    |g.nodes| == |h.nodes| && |g.edges| == |h.edges|
  }

  lemma {:induction false} ValuesAreFewer(m: map<nat, nat>)
    ensures |m.Values| <= |m.Keys|
    decreases |m|
  {
    if m == map[] {
      assert m.Values == {};
    } else {
      var k :| k in m;
      var rest := map j | j in m && j != k :: m[j];
      assert m.Keys == rest.Keys + {k};
      assert m.Values <= rest.Values + {m[k]} by {
        forall v | v in m.Values ensures v in rest.Values + {m[k]} {
          var j :| j in m && m[j] == v;
          assert j != k ==> j in rest && rest[j] == v;
        }
      }
      ValuesAreFewer(rest);
      SubsetSize(m.Values, rest.Values + {m[k]});
    }
  }

  /** An original node buried in n. */
  ghost function BuriedIn(home: map<nat, nat>, n: nat): (a: nat)
    requires n in home.Values
    ensures a in home && home[a] == n
  {
    var a :| a in home && home[a] == n;
    a
  }

  lemma HomesAreFewer(home: map<nat, nat>, next: map<nat, nat>)
    requires Coarser(home, next)
    ensures |next.Values| <= |home.Values|
  {
    var moved := map n | n in home.Values :: next[BuriedIn(home, n)];
    forall n | n in next.Values ensures n in moved.Values {
      var a := BuriedIn(next, n);
      assert home[a] in home.Values;
      var b := BuriedIn(home, home[a]);
      assert Together(home, a, b) && Together(next, a, b);
      assert moved[home[a]] == n;
    }
    SubsetSize(next.Values, moved.Values);
    assert moved.Keys == home.Values;
    ValuesAreFewer(moved);
  }

  /** No transform makes nodes or edges. */
  lemma NeverLarger(keeps: Keeps, E0: set<Edge>, r: Run, r': Run)
    requires r in Running(E0) && r' in After(keeps, E0, r)
    ensures |r'.g.nodes| <= |r.g.nodes| && |r'.g.edges| <= |r.g.edges|
  {
    HomesAreFewer(r.home, r'.home);
  }

  /** The original graph is reached from one node. */
  ghost predicate Spread(E0: set<Edge>, home: map<nat, nat>, root: nat) {
    forall b {:trigger Reach(E0, root, b)} :: b in home ==> Reach(E0, root, b)
  }

  /** Then every graph of a run is reached from where that node is now. */
  lemma SpreadsOn(E0: set<Edge>, r: Run, root: nat)
    requires r in Running(E0) && root in r.home && Spread(E0, r.home, root)
    ensures forall n :: n in r.g.nodes ==> Reach(r.g.edges, r.home[root], n)
  {
    forall n | n in r.g.nodes ensures Reach(r.g.edges, r.home[root], n) {
      var b := BuriedIn(r.home, n);
      assert Reach(E0, root, b);
      ReachRefl(r.g.edges, n);
    }
  }

  /** So when nothing is left to do, there is no chain, no diamond and no enclosed region anywhere. */
  lemma NothingLeftAnywhere(E0: set<Edge>, r: Run, root: nat, how: Search)
    requires r in Running(E0) && root in r.home && Spread(E0, r.home, root)
    requires NothingLeft(r.g, r.home[root], how)
    ensures forall n :: n in r.g.nodes ==> n in Quiet(r.g, true)
  {
    SpreadsOn(E0, r, root);
    var first := r.home[root];
    forall n | n in r.g.nodes ensures n in Quiet(r.g, true) {
      assert Reach(r.g.edges, first, n);
    }
  }

  // ----- one round, and all of them -----

  /** What a round did: the graphs of its pass up to the last, the loops it took up to the graph
      without them, the graphs of its frequency rewrites, and whether there was one. */
  datatype Round = Round(pass: seq<Run>, passed: Run, loops: seq<Net>, contracted: Run, law: seq<GraphState>,
                         changed: bool)

  ghost predicate RoundMade(root: nat, how: Search, a: Run, d: Round, b: Run) {
    && WholePass(true, root, d.pass, a, d.passed)
    && LoopsFound(d.passed.g, how, d.loops, d.passed.g.nodes)
    && By(LoopStep(), d.loops, d.passed, d.contracted)
    && b.home == d.contracted.home && BalancePass(d.law, d.contracted.g, b.g, b.g.nodes)
    && (d.changed <==> b.g != d.contracted.g) && (!d.changed ==> Balanced(b.g))
  }

  ghost function RoundStep(root: nat, how: Search): (Run, Round, Run) -> bool {
    (a: Run, d: Round, b: Run) => RoundMade(root, how, a, d, b)
  }

  /** One round of the outer loop. The pass starts at the first node: the one the original entrance
      `root` is buried in. */
  method TransformRound(graph: ControlGraph, root: nat, how: Search, ghost E0: set<Edge>, home0: map<nat, nat>)
    returns (didChange: bool, home: map<nat, nat>, ghost d: Round)
    requires Run(home0, graph.View()) in Running(E0) && root in home0 && Pricing(how)
    modifies graph
    ensures Run(home, graph.View()) in After(PROFILE, E0, Run(home0, old(graph.View()))) && root in home
    ensures RoundMade(root, how, Run(home0, old(graph.View())), d, Run(home, graph.View()))
    ensures d.changed == didChange
    ensures didChange ==> TotalFreq(graph.View()) < TotalFreq(old(graph.View()))
    ensures !didChange ==> graph.View() in Simplified(old(graph.View()), home[root], how)
  {
    ghost var r0 := Run(home0, graph.View());
    ghost var pass, loops, rounds, law;
    home, pass := graph.SimplifyPass(true, root, E0, home0);
    ghost var r1 := Run(home, graph.View());
    AfterWeaker(ALL, PROFILE, E0, r0, r1);
    home, loops, rounds := LowFrequencyLoopTransform(graph, how, E0, home);
    ghost var r2 := Run(home, graph.View());
    NeverLarger(PROFILE, E0, r1, r2);
    AfterTrans(PROFILE, E0, r0, r1, r2);
    didChange, law := graph.KCLTransform(E0, home);
    ghost var r3 := Run(home, graph.View());
    AfterWeaker(ALL, PROFILE, E0, r2, r3);
    AfterTrans(PROFILE, E0, r0, r2, r3);
    d := Round(pass, r1, loops, r2, law, didChange);
    if !didChange {
      RoundFoundNothing(E0, r0, d, r3, root, how);
    }
  }

  /** A round without any contraction and any rewrite. */
  lemma NothingDone(r0: Run, d: Round, r: Run, root: nat, how: Search)
    requires RoundMade(root, how, r0, d, r) && !d.changed && d.loops == [] && |d.pass| == 1
    requires d.contracted == d.passed
    ensures r == r0 && WholePass(true, root, [r0], r0, r0)
    ensures LoopsFound(r0.g, how, [], r0.g.nodes) && Balanced(r0.g)
  {
    assert d.pass == [r0];
  }

  /** A round that made the graph no smaller and changed no frequency found nothing at all. */
  lemma RoundFoundNothing(E0: set<Edge>, r0: Run, d: Round, r: Run, root: nat, how: Search)
    requires r0 in Running(E0) && root in r0.home && root in r.home && RoundMade(root, how, r0, d, r) && !d.changed
    requires |d.contracted.g.nodes| <= |d.passed.g.nodes| && |d.passed.g.nodes| + |d.pass| <= |r0.g.nodes| + 1
    requires |d.contracted.g.edges| + |d.loops| <= |d.passed.g.edges| <= |r0.g.edges|
    requires d.loops == [] ==> d.contracted == d.passed
    ensures r.g in Simplified(r0.g, r.home[root], how)
  {
    IdleIsBalanced(r0, d, r, root, how);
    if AsLarge(r.g, r0.g) {
      assert d.loops == [] && |d.pass| == 1;
      NothingDone(r0, d, r, root, how);
      RunIsValid(E0, r0);
      RootIsThere(E0, r0, root);
      QuietPass(true, root, r0);
      NothingIsLeft(r0.g, r0.home[root], how);
    }
  }

  lemma IdleIsBalanced(r0: Run, d: Round, r: Run, root: nat, how: Search)
    requires RoundMade(root, how, r0, d, r) && !d.changed
    ensures Balanced(r.g) && r.g == d.contracted.g && |d.pass| > 0
  {
  }

  lemma NothingIsLeft(g: GraphState, first: nat, how: Search)
    requires Valid(g) && Balanced(g) && first in g.nodes && LoopsFound(g, how, [], g.nodes)
    requires forall n :: Reach(g.edges, first, n) ==> n in Quiet(g, true)
    ensures NothingLeft(g, first, how)
  {
  }

  /** The last round of a run decides what the whole run leaves. */
  lemma LaterSimplified(E0: set<Edge>, r0: Run, r: Run, r': Run, first: nat, how: Search)
    requires r0 in Running(E0) && r in After(PROFILE, E0, r0) && r' in After(PROFILE, E0, r)
    ensures r'.g in Simplified(r.g, first, how) ==> r'.g in Simplified(r0.g, first, how)
  {
    NeverLarger(PROFILE, E0, r0, r);
    NeverLarger(PROFILE, E0, r, r');
  }

  /** What comes before the rounds: the frequency rewrites up to the balanced graph, and the pass. */
  datatype Prelude = Prelude(law: seq<GraphState>, balanced: Run, pass: seq<Run>)

  ghost predicate PreludeMade(root: nat, segmentations: bool, a: Run, p: Prelude, b: Run) {
    && p.balanced.home == a.home
    && (if segmentations then p.balanced == a else BalancePass(p.law, a.g, p.balanced.g, a.g.nodes))
    && WholePass(false, root, p.pass, p.balanced, b)
  }

  /** What ApplyCFGTransforms did: what comes first, the graph the rounds start with, and the rounds. */
  datatype Application = Application(prelude: Prelude, ready: Run, rounds: seq<Round>)

  /** There is another round exactly after one that changed a frequency. */
  ghost predicate Applied(root: nat, how: Search, segmentations: bool, a: Run, app: Application, b: Run) {
    && PreludeMade(root, segmentations, a, app.prelude, app.ready)
    && By(RoundStep(root, how), app.rounds, app.ready, b)
    && OnlyLastIdle(app.rounds)
  }

  ghost predicate OnlyLastIdle(rounds: seq<Round>) {
    |rounds| > 0 && forall i :: 0 <= i < |rounds| ==> (rounds[i].changed <==> i < |rounds| - 1)
  }

  /** So far there was another round after every one that changed a frequency. */
  ghost predicate GoesOn(rounds: seq<Round>, more: bool) {
    if more then forall i :: 0 <= i < |rounds| ==> rounds[i].changed else OnlyLastIdle(rounds)
  }

  lemma AnotherRound(root: nat, how: Search, rounds: seq<Round>, a: Run, b: Run, d: Round, c: Run)
    requires By(RoundStep(root, how), rounds, a, b) && GoesOn(rounds, true) && RoundMade(root, how, b, d, c)
    ensures By(RoundStep(root, how), rounds + [d], a, c) && GoesOn(rounds + [d], d.changed)
  {
    ByOneMore(RoundStep(root, how), rounds, a, b, d, c);
  }

  /** What the last round left: frequencies are balanced; and when it took no loop, no node that is
      reached had anything to contract when its turn came, nor is there a loop to take. */
  lemma LastRoundLeaves(root: nat, how: Search, segmentations: bool, a: Run, app: Application, b: Run)
    requires Applied(root, how, segmentations, a, app, b)
    ensures Balanced(b.g)
    ensures var d := app.rounds[|app.rounds| - 1];
      d.loops == [] ==>
        && (forall n :: root in b.home && Reach(b.g.edges, b.home[root], n) ==> Once(d.pass, QuietAt(true, n)))
        && (forall n :: n in b.g.nodes ==> n in DealtWith(b.g, how, []))
  {
    var d := app.rounds[|app.rounds| - 1];
    var x := ByLast(RoundStep(root, how), app.rounds, app.ready, b);
    assert RoundMade(root, how, x, d, b);
    if d.loops == [] {
      ByNothing(LoopStep(), d.loops, d.passed, d.contracted);
    }
  }

  /** ApplyCFGTransforms. Another round is made exactly when Kirchhoff's law changed a frequency,
      and every such change lowers the total frequency, which no contraction raises: the loop
      ends, with a balanced graph. */
  method ApplyCFGTransforms(graph: ControlGraph, root: nat, how: Search, segmentations: bool, ghost E0: set<Edge>,
                            home0: map<nat, nat>)
    returns (home: map<nat, nat>, ghost app: Application)
    requires Run(home0, graph.View()) in Running(E0) && root in home0 && Pricing(how)
    modifies graph
    ensures Run(home, graph.View()) in After(PROFILE, E0, Run(home0, old(graph.View()))) && root in home
    ensures Applied(root, how, segmentations, Run(home0, old(graph.View())), app, Run(home, graph.View()))
    ensures graph.View() in Simplified(old(graph.View()), home[root], how)
  {
    ghost var r0 := Run(home0, graph.View());
    ghost var prelude;
    home, prelude := Prepare(graph, root, segmentations, E0, home0);
    ghost var ready, rounds: seq<Round> := Run(home, graph.View()), [];
    ByNone(RoundStep(root, how), ready);
    var graphSize := |graph.nodeSet| + |graph.edgeSet| - 1;
    while graphSize < |graph.nodeSet| + |graph.edgeSet|
      invariant Run(home, graph.View()) in After(PROFILE, E0, r0) && root in home
      invariant By(RoundStep(root, how), rounds, ready, Run(home, graph.View()))
      invariant GoesOn(rounds, graphSize < |graph.nodeSet| + |graph.edgeSet|)
      invariant graphSize >= |graph.nodeSet| + |graph.edgeSet| ==> graph.View() in Simplified(r0.g, home[root], how)
      decreases TotalFreq(graph.View()), |graph.nodeSet| + |graph.edgeSet| - graphSize
    {
      var didChange;
      didChange, home, rounds := NextRound(graph, root, how, E0, r0, home, ready, rounds);
      if didChange {
        graphSize := |graph.nodeSet| + |graph.edgeSet| - 1;
      } else {
        graphSize := |graph.nodeSet| + |graph.edgeSet|;
      }
    }
    app := Application(prelude, ready, rounds);
  }

  /** The body of the outer loop. */
  method NextRound(graph: ControlGraph, root: nat, how: Search, ghost E0: set<Edge>, ghost r0: Run,
                   home0: map<nat, nat>, ghost ready: Run, ghost rounds0: seq<Round>)
    returns (didChange: bool, home: map<nat, nat>, ghost rounds: seq<Round>)
    requires r0 in Running(E0) && Run(home0, graph.View()) in After(PROFILE, E0, r0) && root in home0 && Pricing(how)
    requires By(RoundStep(root, how), rounds0, ready, Run(home0, graph.View())) && GoesOn(rounds0, true)
    modifies graph
    ensures Run(home, graph.View()) in After(PROFILE, E0, r0) && root in home
    ensures By(RoundStep(root, how), rounds, ready, Run(home, graph.View())) && GoesOn(rounds, didChange)
    ensures TotalFreq(graph.View()) <= TotalFreq(old(graph.View()))
    ensures didChange ==> TotalFreq(graph.View()) < TotalFreq(old(graph.View()))
    ensures !didChange ==> graph.View() in Simplified(r0.g, home[root], how)
  {
    ghost var r := Run(home0, graph.View());
    ghost var d;
    didChange, home, d := TransformRound(graph, root, how, E0, home0);
    LaterSimplified(E0, r0, r, Run(home, graph.View()), home[root], how);
    AfterTrans(PROFILE, E0, r0, r, Run(home, graph.View()));
    AnotherRound(root, how, rounds0, ready, r, d, Run(home, graph.View()));
    rounds := rounds0 + [d];
  }

  /** What comes before the outer loop: frequencies are balanced unless only segments are wanted,
      and chains and diamonds are contracted. */
  method Prepare(graph: ControlGraph, root: nat, segmentations: bool, ghost E0: set<Edge>, home0: map<nat, nat>)
    returns (home: map<nat, nat>, ghost p: Prelude)
    requires Run(home0, graph.View()) in Running(E0) && root in home0
    modifies graph
    ensures Run(home, graph.View()) in After(PROFILE, E0, Run(home0, old(graph.View()))) && root in home
    ensures PreludeMade(root, segmentations, Run(home0, old(graph.View())), p, Run(home, graph.View()))
    ensures !segmentations ==> TotalFreq(graph.View()) < TotalFreq(old(graph.View())) || Balanced(old(graph.View()))
  {
    ghost var r0 := Run(home0, graph.View());
    ghost var law, pass;
    AfterSelf(ALL, E0, r0);
    if !segmentations {
      var didChange;
      didChange, law := graph.KCLTransform(E0, home0);
    } else {
      law := [];
    }
    ghost var r1 := Run(home0, graph.View());
    home, pass := graph.SimplifyPass(false, root, E0, home0);
    AfterTrans(ALL, E0, r0, r1, Run(home, graph.View()));
    AfterWeaker(ALL, PROFILE, E0, r0, Run(home, graph.View()));
    p := Prelude(law, r1, pass);
  }

  // ----- kernels -----

  /** What the selection is told about a kernel. The probability is any function of it: the
      selection does not depend on it. */
  ghost function CandidateOf(E: set<Edge>, probability: Net -> real, kernel: Net): (c: Candidate)
    ensures c.nodes == kernel.nodes && c.score <= 2 * |E|
  {
    SubsetSize(Entering(E, kernel.nodes), E);
    SubsetSize(Leaving(E, kernel.nodes), E);
    Candidate(kernel.nodes, |Entering(E, kernel.nodes)| + |Leaving(E, kernel.nodes)|, probability(kernel))
  }

  /** EnExScore and PathProbability of one kernel. */
  method ScoreOne(graph: ControlGraph, kernel: Net, probability: Net -> real) returns (c: Candidate)
    requires Valid(graph.View()) && kernel in MLKernels(graph.View())
    ensures c == CandidateOf(graph.edgeSet, probability, kernel)
  {
    var entrances, exits := CrossKernel(graph, kernel);
    c := Candidate(kernel.nodes, |entrances| + |exits|, probability(kernel));
  }

  ghost predicate Scored(score: Net -> Candidate, found: seq<Net>, K: seq<Candidate>) {
    |K| <= |found| && forall k {:trigger K[k]} :: 0 <= k < |K| ==> K[k] == score(found[k])
  }

  lemma ScoredNext(score: Net -> Candidate, found: seq<Net>, K: seq<Candidate>, c: Candidate)
    requires Scored(score, found, K) && |K| < |found| && c == score(found[|K|])
    ensures Scored(score, found, K + [c])
  {
  }

  /** Those of every kernel found. */
  method Score(graph: ControlGraph, found: seq<Net>, probability: Net -> real) returns (K: seq<Candidate>)
    requires Valid(graph.View()) && forall i :: 0 <= i < |found| ==> found[i] in MLKernels(graph.View())
    ensures |K| == |found|
    ensures forall i :: 0 <= i < |K| ==> K[i] == CandidateOf(graph.edgeSet, probability, found[i])
  {
    K := [];
    ghost var E := graph.edgeSet;
    ghost var score := (kernel: Net) => CandidateOf(E, probability, kernel);
    for i := 0 to |found|
      invariant |K| == i && Scored(score, found, K)
    {
      var c := ScoreOne(graph, found[i], probability);
      ScoredNext(score, found, K, c);
      K := K + [c];
    }
  }

  lemma SelectedWaits(g: GraphState, found: seq<Net>, K: seq<Candidate>, min: int, kept: set<int>)
    requires |K| == |found| && forall i :: 0 <= i < |K| ==> K[i].nodes == found[i].nodes
    requires forall i :: 0 <= i < |found| ==> found[i] in MLKernels(g)
    requires Selection(K, min, kept)
    ensures KeptApart(found, kept) && Waiting(g, found, kept, 0)
  {
    forall i, j | 0 <= i < j < |found| && i in kept && j in kept ensures found[i].nodes !! found[j].nodes {
      assert !KernelSelection.Overlap(K[i], K[j]);
    }
    forall k | 0 <= k < |found| && k in kept ensures found[k].nodes <= g.nodes && Kernel(g.edges, found[k]) {
      assert found[k] in MLKernels(g);
    }
  }

  lemma NoneKept(kept: set<int>, n: nat)
    requires forall k :: k in kept ==> 0 <= k < n
    requires forall k :: 0 <= k < n ==> k !in kept
    ensures kept == {}
  {
    assert forall k :: k !in kept;
  }

  /** What one iteration found, and which of it was kept. */
  datatype Choice = Choice(found: seq<Net>, kept: set<int>)

  ghost predicate ScoresOf(E: set<Edge>, probability: Net -> real, found: seq<Net>, K: seq<Candidate>) {
    |K| == |found| && forall i {:trigger K[i]} :: 0 <= i < |K| ==> K[i] == CandidateOf(E, probability, found[i])
  }

  ghost predicate LeastScore(K: seq<Candidate>, min: int) {
    && (forall k :: 0 <= k < |K| ==> min <= K[k].score)
    && (K == [] || exists k :: 0 <= k < |K| && K[k].score == min)
  }

  /** The choices an iteration can make: eligible kernels, for every node whose cheapest cycle is one, of which
      those are kept that the selection keeps. */
  ghost function Choices(g: GraphState, how: Search, probability: Net -> real): iset<Choice> {
    iset c: Choice |
      && (forall i {:trigger c.found[i]} :: 0 <= i < |c.found| ==>
            c.found[i] in MLKernels(g) && LookedUp(g, how, c.found[i]))
      && (forall n {:trigger n in g.nodes} :: n in g.nodes ==> n in Sought(g, how, c.found))
      && exists K, min :: ScoresOf(g.edges, probability, c.found, K) && LeastScore(K, min) && Selection(K, min, c.kept)
  }

  lemma IsChoice(g: GraphState, how: Search, probability: Net -> real, found: seq<Net>, K: seq<Candidate>, min: int,
                 kept: set<int>)
    requires forall i :: 0 <= i < |found| ==> found[i] in MLKernels(g) && LookedUp(g, how, found[i])
    requires forall n :: n in g.nodes ==> n in Sought(g, how, found)
    requires |K| == |found| && forall i :: 0 <= i < |K| ==> K[i] == CandidateOf(g.edges, probability, found[i])
    requires Selection(K, min, kept) && forall k :: 0 <= k < |K| ==> min <= K[k].score
    requires K == [] || exists k :: 0 <= k < |K| && K[k].score == min
    ensures Choice(found, kept) in Choices(g, how, probability)
  {
    assert ScoresOf(g.edges, probability, found, K) && LeastScore(K, min);
  }

  ghost function BoundarySize(E: set<Edge>, sub: Net): nat {
    |Entering(E, sub.nodes)| + |Leaving(E, sub.nodes)|
  }

  /** The eligible kernels of cheapest cycles. */
  ghost function LookedUpKernels(g: GraphState, how: Search): iset<Net> {
    iset sub: Net | sub in MLKernels(g) && LookedUp(g, how, sub)
  }

  /** The kernels taken in one iteration are eligible, those of cheapest cycles, and apart from each
      other. */
  lemma TakenKernels(g: GraphState, how: Search, probability: Net -> real, c: Choice)
    requires c in Choices(g, how, probability)
    ensures NodesApart(TakenFrom(c.found, c.kept, |c.found|))
    ensures forall sub :: sub in TakenFrom(c.found, c.kept, |c.found|) ==> sub in LookedUpKernels(g, how)
  {
    var K: seq<Candidate>, min :|
      ScoresOf(g.edges, probability, c.found, K) && LeastScore(K, min) && Selection(K, min, c.kept);
    KeptAreApart(c, K, min);
    PickedApart(c.found, c.kept, |c.found|);
    PickedHave(c.found, c.kept, LookedUpKernels(g, how));
  }

  ghost function AtMost(E: set<Edge>, score: int): iset<Net> {
    iset sub: Net | BoundarySize(E, sub) <= score
  }

  lemma KeptAreBest(E: set<Edge>, probability: Net -> real, c: Choice, K: seq<Candidate>, min: int, other: Net)
    requires ScoresOf(E, probability, c.found, K) && LeastScore(K, min) && Selection(K, min, c.kept) && other in c.found
    ensures forall k {:trigger c.found[k]} :: 0 <= k < |c.found| && k in c.kept ==>
      c.found[k] in AtMost(E, BoundarySize(E, other))
  {
    var i :| 0 <= i < |c.found| && c.found[i] == other;
    assert min <= K[i].score == BoundarySize(E, other);
    forall k | 0 <= k < |c.found| && k in c.kept ensures c.found[k] in AtMost(E, BoundarySize(E, other)) {
      assert K[k].score == BoundarySize(E, c.found[k]);
    }
  }

  /** None that was found has fewer entrances and exits. */
  lemma TakenAreBest(g: GraphState, how: Search, probability: Net -> real, c: Choice, other: Net)
    requires c in Choices(g, how, probability) && other in c.found
    ensures forall sub :: sub in TakenFrom(c.found, c.kept, |c.found|) ==>
      BoundarySize(g.edges, sub) <= BoundarySize(g.edges, other)
  {
    var K: seq<Candidate>, min :|
      ScoresOf(g.edges, probability, c.found, K) && LeastScore(K, min) && Selection(K, min, c.kept);
    KeptAreBest(g.edges, probability, c, K, min, other);
    PickedHave(c.found, c.kept, AtMost(g.edges, BoundarySize(g.edges, other)));
    forall sub | sub in TakenFrom(c.found, c.kept, |c.found|)
      ensures BoundarySize(g.edges, sub) <= BoundarySize(g.edges, other)
    {
      assert sub in AtMost(g.edges, BoundarySize(g.edges, other));
    }
  }

  /** And where they go: each into a new node of its own, while everything else stays. */
  lemma TakenMove(g: GraphState, taken: seq<Net>, home: map<nat, nat>)
    requires NodesApart(taken) && forall sub :: sub in taken ==> sub in MLKernels(g)
    ensures var next := Gathered(home, taken, |taken|, g.nextNID);
      && next.Keys == home.Keys
      && (forall a, j {:trigger home[a], taken[j]} :: a in home && 0 <= j < |taken| && home[a] in taken[j].nodes ==>
            next[a] == g.nextNID + j)
      && (forall a {:trigger next[a]} :: a in home && (forall j :: 0 <= j < |taken| ==> home[a] !in taken[j].nodes) ==>
            next[a] == home[a])
  {
    forall j | 0 <= j < |taken| ensures Older(taken[j], g.nextNID) {
      assert taken[j] in MLKernels(g);
    }
    GatheredApart(home, taken, |taken|, g.nextNID);
  }

  lemma KeptAreApart(c: Choice, K: seq<Candidate>, min: int)
    requires |K| == |c.found| && forall i :: 0 <= i < |K| ==> K[i].nodes == c.found[i].nodes
    requires Selection(K, min, c.kept)
    ensures KeptApart(c.found, c.kept)
  {
    forall i, j | 0 <= i < j < |c.found| && i in c.kept && j in c.kept ensures c.found[i].nodes !! c.found[j].nodes {
      assert !KernelSelection.Overlap(K[i], K[j]);
    }
  }

  /** Find and select. */
  method ChooseKernels(graph: ControlGraph, how: Search, probability: Net -> real)
    returns (newKernels: seq<Net>, chosen: set<int>)
    requires Valid(graph.View()) && Pricing(how) && 2 * |graph.edgeSet| < INT_MAX
    ensures Choice(newKernels, chosen) in Choices(graph.View(), how, probability)
    ensures KeptApart(newKernels, chosen) && Waiting(graph.View(), newKernels, chosen, 0)
    ensures forall k :: k in chosen ==> 0 <= k < |newKernels|
    ensures chosen == {} ==> newKernels == []
    ensures forall n :: n in graph.nodeSet ==> n in Sought(graph.View(), how, newKernels)
  {
    newKernels := FindKernels(graph, how);
    var K := Score(graph, newKernels, probability);
    ghost var minScore, fellBack;
    chosen, minScore, fellBack := SelectKernels(K);
    SelectedWaits(graph.View(), newKernels, K, minScore, chosen);
    IsChoice(graph.View(), how, probability, newKernels, K, minScore, chosen);
  }

  // ----- the search -----

  /** What an iteration did: what it found and chose, what it took up to the graph without it, and
      the transforms tried again. */
  datatype Iteration = Iteration(choice: Choice, taken: seq<Net>, contracted: Run, app: Application)

  ghost predicate TakingMade(how: Search, probability: Net -> real, a: Run, choice: Choice, taken: seq<Net>, b: Run) {
    && choice in Choices(a.g, how, probability)
    && taken == TakenFrom(choice.found, choice.kept, |choice.found|)
    && By(TakeStep(), taken, a, b)
  }

  ghost predicate RetryMade(root: nat, how: Search, applyTransforms: bool, a: Run, app: Application, b: Run) {
    if applyTransforms && Cyclic(a.g.edges) then Applied(root, how, true, a, app, b) else b == a
  }

  /** How the search is set up. */
  datatype Setting = Setting(root: nat, how: Search, probability: Net -> real, applyTransforms: bool)

  ghost predicate IterationMade(c: Setting, a: Run, it: Iteration, b: Run) {
    && TakingMade(c.how, c.probability, a, it.choice, it.taken, it.contracted)
    && RetryMade(c.root, c.how, c.applyTransforms, it.contracted, it.app, b)
  }

  ghost function IterationStep(c: Setting): (Run, Iteration, Run) -> bool {
    (a: Run, it: Iteration, b: Run) => IterationMade(c, a, it, b)
  }

  /** All kernels taken, iteration by iteration. */
  ghost function KernelsOf(its: seq<Iteration>): seq<Net> {
    if its == [] then [] else KernelsOf(its[..|its| - 1]) + its[|its| - 1].taken
  }

  lemma KernelsOfMore(its: seq<Iteration>, it: Iteration)
    ensures KernelsOf(its + [it]) == KernelsOf(its) + it.taken
  {
    assert (its + [it])[..|its|] == its;
  }

  lemma {:induction false} KernelsOfOne(its: seq<Iteration>, sub: Net) returns (i: nat, j: nat)
    requires sub in KernelsOf(its)
    ensures i < |its| && j < |its[i].taken| && its[i].taken[j] == sub
  {
    if sub in its[|its| - 1].taken {
      i := |its| - 1;
      j :| 0 <= j < |its[i].taken| && its[i].taken[j] == sub;
    } else {
      i, j := KernelsOfOne(its[..|its| - 1], sub);
    }
  }

  /** Every kernel returned was eligible in the graph x an iteration looked at, and there the kernel
      of a cheapest cycle; its nodes went into one new node, and only what was taken moved. */
  lemma ReturnedKernel(c: Setting, its: seq<Iteration>, a: Run, b: Run, sub: Net)
    returns (i: nat, j: nat, x: Run, y: Run)
    requires By(IterationStep(c), its, a, b) && sub in KernelsOf(its)
    ensures i < |its| && By(IterationStep(c), its[..i], a, x) && IterationMade(c, x, its[i], y)
    ensures j < |its[i].taken| && its[i].taken[j] == sub && sub in MLKernels(x.g) && LookedUp(x.g, c.how, sub)
    ensures its[i].contracted.home.Keys == x.home.Keys
    ensures forall n :: n in x.home && x.home[n] in sub.nodes ==> its[i].contracted.home[n] == x.g.nextNID + j
    ensures forall n :: n in x.home && (forall k :: 0 <= k < |its[i].taken| ==> x.home[n] !in its[i].taken[k].nodes) ==>
      its[i].contracted.home[n] == x.home[n]
  {
    i, j := KernelsOfOne(its, sub);
    x, y := ByAt(IterationStep(c), its, a, b, i);
    TakenOne(c, x, its[i], j);
  }

  lemma TakenOne(c: Setting, x: Run, it: Iteration, j: nat)
    requires TakingMade(c.how, c.probability, x, it.choice, it.taken, it.contracted) && j < |it.taken|
    ensures it.taken[j] in MLKernels(x.g) && LookedUp(x.g, c.how, it.taken[j])
    ensures it.contracted.home.Keys == x.home.Keys
    ensures forall n :: n in x.home && x.home[n] in it.taken[j].nodes ==> it.contracted.home[n] == x.g.nextNID + j
    ensures forall n :: n in x.home && (forall k :: 0 <= k < |it.taken| ==> x.home[n] !in it.taken[k].nodes) ==>
      it.contracted.home[n] == x.home[n]
  {
    TakenKernels(x.g, c.how, c.probability, it.choice);
    KernelsMove(it.taken, x, it.contracted);
    assert it.taken[j] in LookedUpKernels(x.g, c.how);
    forall sub | sub in it.taken ensures sub in MLKernels(x.g) {
      assert sub in LookedUpKernels(x.g, c.how);
    }
    TakenMove(x.g, it.taken, x.home);
  }

  /** One iteration: find, select, contract. */
  method TakeKernels(graph: ControlGraph, how: Search, probability: Net -> real, ghost E0: set<Edge>,
                     home0: map<nat, nat>)
    returns (taken: seq<Net>, home: map<nat, nat>, ghost choice: Choice)
    requires Run(home0, graph.View()) in Running(E0) && Pricing(how) && 2 * |graph.edgeSet| < INT_MAX
    modifies graph
    ensures Run(home, graph.View()) in After(REACH, E0, Run(home0, old(graph.View())))
    ensures TakingMade(how, probability, Run(home0, old(graph.View())), choice, taken, Run(home, graph.View()))
    ensures |graph.edgeSet| + |taken| <= |old(graph.edgeSet)|
    ensures taken == [] ==> graph.View() == old(graph.View()) && home == home0
    ensures taken == [] ==> forall n :: n in graph.nodeSet ==> n in Sought(graph.View(), how, [])
  {
    ghost var r := Run(home0, graph.View());
    RunIsValid(E0, r);
    var newKernels, chosen := ChooseKernels(graph, how, probability);
    choice := Choice(newKernels, chosen);
    taken, home := VirtualizeKernels(graph, newKernels, chosen, E0, home0);
    KernelsMove(taken, r, Run(home, graph.View()));
    PickedAll(newKernels, chosen, |newKernels|);
    if taken == [] {
      NoneKept(chosen, |newKernels|);
      assert newKernels == [];
    }
  }

  /** After kernels were taken, the remaining cycles are looked for and the other transforms tried
      again. */
  method Resimplify(graph: ControlGraph, root: nat, how: Search, applyTransforms: bool, ghost E0: set<Edge>,
                    home0: map<nat, nat>)
    returns (home: map<nat, nat>, ghost app: Application)
    requires Run(home0, graph.View()) in Running(E0) && root in home0 && Pricing(how)
    modifies graph
    ensures Run(home, graph.View()) in After(REACH, E0, Run(home0, old(graph.View()))) && root in home
    ensures RetryMade(root, how, applyTransforms, Run(home0, old(graph.View())), app, Run(home, graph.View()))
    ensures applyTransforms && Cyclic(old(graph.edgeSet)) ==>
      graph.View() in Simplified(old(graph.View()), home[root], how)
  {
    ghost var r := Run(home0, graph.View());
    AfterSelf(REACH, E0, r);
    ValidIsMirrored(graph.View());
    home, app := home0, Application(Prelude([], r, []), r, []);
    var cyclic := FindCycles(Net(graph.nodeSet, graph.edgeSet), graph.succs);
    if cyclic && applyTransforms {
      home, app := ApplyCFGTransforms(graph, root, how, true, E0, home);
      AfterWeaker(PROFILE, REACH, E0, r, Run(home, graph.View()));
    }
  }

  /** The iterations so far: none but the last took nothing. */
  ghost predicate SearchGoesOn(its: seq<Iteration>, more: bool) {
    if more then forall i :: 0 <= i < |its| ==> its[i].taken != []
    else |its| > 0 && forall i :: 0 <= i < |its| ==> (its[i].taken == [] <==> i == |its| - 1)
  }

  /** The search so far, and whether it goes on: an iteration after the other, with the kernels they
      took in order. It stops with one that took nothing: no node of the graph that one looked at has
      an eligible kernel looked up for it. */
  ghost predicate SearchMade(c: Setting, its: seq<Iteration>, a: Run, b: Run, kernels: seq<Net>, more: bool) {
    && By(IterationStep(c), its, a, b) && kernels == KernelsOf(its) && SearchGoesOn(its, more)
    && (!more ==> c.root in b.home && Ended(c, its[|its| - 1], b.g, b.home[c.root]))
  }

  /** What is known after an iteration that took nothing. */
  ghost predicate Ended(c: Setting, it: Iteration, g: GraphState, first: nat) {
    var last := it.contracted.g;
    && (forall n {:trigger n in last.nodes} :: n in last.nodes ==> n in Sought(last, c.how, []))
    && (if c.applyTransforms && Cyclic(last.edges) then g in Simplified(last, first, c.how) else g == last)
  }

  /** FindMLCycles, the search: it goes on as long as an iteration takes a kernel, which costs at
      least one edge. The kernels returned are those the iterations took, in order. The graph the
      last one looked at has no node for which it looked up an eligible kernel. */
  method FindMLCycles(graph: ControlGraph, root: nat, how: Search, probability: Net -> real, applyTransforms: bool,
                      ghost E0: set<Edge>, home0: map<nat, nat>)
    returns (kernels: seq<Net>, home: map<nat, nat>, ghost its: seq<Iteration>)
    requires Run(home0, graph.View()) in Running(E0) && root in home0 && Pricing(how) && 2 * |graph.edgeSet| < INT_MAX
    modifies graph
    ensures Run(home, graph.View()) in After(REACH, E0, Run(home0, old(graph.View()))) && root in home
    ensures SearchMade(Setting(root, how, probability, applyTransforms), its, Run(home0, old(graph.View())),
                       Run(home, graph.View()), kernels, false)
    ensures |graph.edgeSet| + |kernels| <= |old(graph.edgeSet)|
  {
    ghost var r0 := Run(home0, graph.View());
    var c := Setting(root, how, probability, applyTransforms);
    AfterSelf(REACH, E0, r0);
    ByNone(IterationStep(c), r0);
    home, kernels, its := home0, [], [];
    var kernelCount := -1;
    while kernelCount < |kernels|
      invariant Run(home, graph.View()) in After(REACH, E0, r0) && root in home
      invariant SearchMade(c, its, r0, Run(home, graph.View()), kernels, kernelCount < |kernels|)
      invariant |graph.edgeSet| + |kernels| <= |r0.g.edges|
      invariant kernelCount <= |kernels|
      decreases |graph.edgeSet|, |kernels| - kernelCount
    {
      kernelCount := |kernels|;
      kernels, home, its := NextKernels(graph, c, E0, r0, home, kernels, its);
    }
  }

  /** The body of the search loop. */
  method NextKernels(graph: ControlGraph, c: Setting, ghost E0: set<Edge>, ghost r0: Run, home0: map<nat, nat>,
                     kernels0: seq<Net>, ghost its0: seq<Iteration>)
    returns (kernels: seq<Net>, home: map<nat, nat>, ghost its: seq<Iteration>)
    requires Run(home0, graph.View()) in After(REACH, E0, r0) && c.root in home0 && Pricing(c.how)
    requires SearchMade(c, its0, r0, Run(home0, graph.View()), kernels0, true) && 2 * |graph.edgeSet| < INT_MAX
    modifies graph
    ensures Run(home, graph.View()) in After(REACH, E0, r0) && c.root in home
    ensures SearchMade(c, its, r0, Run(home, graph.View()), kernels, |kernels0| < |kernels|)
    ensures |kernels0| <= |kernels| && |graph.edgeSet| + |kernels| <= |old(graph.edgeSet)| + |kernels0|
  {
    ghost var r := Run(home0, graph.View());
    var taken;
    ghost var choice, app;
    taken, home, choice := TakeKernels(graph, c.how, c.probability, E0, home0);
    ghost var mid := Run(home, graph.View());
    home, app := Resimplify(graph, c.root, c.how, c.applyTransforms, E0, home);
    AfterTrans(REACH, E0, r, mid, Run(home, graph.View()));
    AfterTrans(REACH, E0, r0, r, Run(home, graph.View()));
    kernels := kernels0 + taken;
    ghost var it := Iteration(choice, taken, mid, app);
    AnotherIteration(c, its0, r0, r, it, Run(home, graph.View()), kernels0);
    its := its0 + [it];
  }

  lemma AnotherIteration(c: Setting, its: seq<Iteration>, r0: Run, r: Run, it: Iteration, r': Run, kernels: seq<Net>)
    requires SearchMade(c, its, r0, r, kernels, true) && IterationMade(c, r, it, r')
    requires it.taken == [] ==> c.root in r'.home && Ended(c, it, r'.g, r'.home[c.root])
    ensures SearchMade(c, its + [it], r0, r', kernels + it.taken, it.taken != [])
  {
    ByOneMore(IterationStep(c), its, r0, r, it, r');
    KernelsOfMore(its, it);
  }
}
