/** The kernels of one iteration of FindMLCycles: finding the eligible ones, and contracting the
    selected ones. */
module KernelTransforms {
  import opened Graphs
  import opened Traces
  import opened Sets
  import opened CycleSearch
  import opened Regions
  import opened Contraction
  import opened Deque
  import opened ShortestPath
  import opened ControlState
  import opened Flow
  import opened Runs
  import opened Kernels
  import opened ControlGraphs
  import opened LoopTransforms

  // ----- eligible kernels -----

  /** All cycles between the nodes go through n. */
  ghost predicate AllThrough(E: set<Edge>, N: set<nat>, n: nat) {
    !Cyclic(Induced(E, N - {n})) && (N != {n} ==> Edge(n, n) !in E)
  }

  /** All its cycles go through one of its nodes; executed often, entered and left somewhere. */
  ghost function MLKernels(g: GraphState): iset<Net> {
    iset kernel: Net | && Valid(g) && kernel.nodes <= g.nodes && Kernel(g.edges, kernel)
                       && (exists n :: n in kernel.nodes && AllThrough(g.edges, kernel.nodes, n))
                       && (exists n :: n in kernel.nodes && Visits(g, n) >= MIN_ANCHOR)
                       && Entering(g.edges, kernel.nodes) != {} && Leaving(g.edges, kernel.nodes) != {}
  }

  /** The cycle looked up for a node is not eligible, or contains one of these. */
  ghost predicate SkippedFor(g: GraphState, how: Search, found: seq<Net>, n: nat, path: seq<nat>) {
    && Valid(g) && path in CyclesAt(g, how, n)
    && (KernelNet(g.edges, Stem(path)) in MLKernels(g) && AllThrough(g.edges, Stem(path), n) ==>
          exists i :: 0 <= i < |found| && found[i].nodes <= Stem(path))
  }

  ghost function Sought(g: GraphState, how: Search, found: seq<Net>): iset<nat> {
    iset n: nat | ReachPlus(g.edges, n, n) ==> exists path :: SkippedFor(g, how, found, n, path)
  }

  /** First test: no other cycle, found by searching the kernel without the node, and the node alone. */
  method OnlyCycle(graph: ControlGraph, kernel: Net, node: nat) returns (only: bool)
    requires Valid(graph.View()) && kernel.nodes <= graph.nodeSet && kernel == KernelNet(graph.edgeSet, kernel.nodes)
    requires node in kernel.nodes
    ensures only <==> AllThrough(graph.edgeSet, kernel.nodes, node)
  {
    var cycle := Net(kernel.nodes - {node}, kernel.edges);
    var lone := Net({node}, graph.succs[node]);
    WithoutNode(graph.View(), kernel, node);
    var others := FindCycles(cycle, graph.succs);
    only := !others;
    if only && |cycle.nodes| > 0 {
      var self := FindCycles(lone, graph.succs);
      only := !self;
    }
  }

  lemma WithoutNode(g: GraphState, kernel: Net, node: nat)
    requires Valid(g) && kernel.nodes <= g.nodes && kernel == KernelNet(g.edges, kernel.nodes) && node in kernel.nodes
    ensures LinksFor(kernel.nodes - {node}, g.succs) && LinksFor({node}, g.succs)
    ensures Visible(Net(kernel.nodes - {node}, kernel.edges), g.succs) == Induced(g.edges, kernel.nodes - {node})
    ensures Cyclic(Visible(Net({node}, g.succs[node]), g.succs)) <==> Edge(node, node) in g.edges
    ensures |kernel.nodes - {node}| > 0 <==> kernel.nodes != {node}
  {
    ValidIsMirrored(g);
    var V := Visible(Net({node}, g.succs[node]), g.succs);
    assert V == if Edge(node, node) in g.edges then {Edge(node, node)} else {};
    if Edge(node, node) in g.edges {
      ReachRefl(V, node);
      assert ReachPlus(V, node, node);
    }
    assert kernel.nodes - {node} == {} <==> kernel.nodes == {node};
  }

  /** The four tests on the kernel of a node. */
  method IsEligible(graph: ControlGraph, kernel: Net, node: nat, found: seq<Net>) returns (valid: bool)
    requires Valid(graph.View()) && kernel.nodes <= graph.nodeSet && Kernel(graph.edgeSet, kernel)
    requires node in kernel.nodes
    ensures valid <==> kernel in MLKernels(graph.View()) && AllThrough(graph.edgeSet, kernel.nodes, node)
                       && !exists i :: 0 <= i < |found| && found[i].nodes <= kernel.nodes
  {
    var only := OnlyCycle(graph, kernel, node);
    var covered := CoversOne(found, kernel.nodes);
    var anchor := AnchorOf(graph, kernel);
    var entrances, exits := CrossKernel(graph, kernel);
    valid := true;
    if !only {
      valid := false;
    }
    if covered {
      valid := false;
    }
    if anchor < MIN_ANCHOR {
      valid := false;
    }
    if entrances == {} || exits == {} {
      valid := false;
    }
  }

  /** Second test: a kernel found before shares all its nodes with this one. */
  method CoversOne(found: seq<Net>, nodes: set<nat>) returns (covered: bool)
    ensures covered <==> exists i :: 0 <= i < |found| && found[i].nodes <= nodes
  {
    covered := false;
    for i := 0 to |found|
      invariant covered <==> exists k :: 0 <= k < i && found[k].nodes <= nodes
    {
      var shared := found[i].nodes * nodes;
      assert found[i].nodes <= nodes ==> shared == found[i].nodes;
      if |shared| == |found[i].nodes| {
        SameSize(shared, found[i].nodes);
        covered := true;
      }
    }
  }

  /** Looking up the kernel of one node. */
  method LookForKernel(graph: ControlGraph, how: Search, node: nat, found: seq<Net>) returns (valid: bool, kernel: Net)
    requires Valid(graph.View()) && Pricing(how) && node in graph.nodeSet
    ensures valid ==> kernel in MLKernels(graph.View()) && LookedUp(graph.View(), how, kernel)
    ensures node in Sought(graph.View(), how, if valid then found + [kernel] else found)
  {
    valid, kernel := false, EmptyNet;
    var nodeIDs;
    ghost var path;
    nodeIDs, path := MinCycle(graph, how, node);
    if nodeIDs != {} {
      kernel := CaptureKernel(graph, nodeIDs);
      valid := IsEligible(graph, kernel, node, found);
      if valid {
        assert KernelOf(graph.View(), how, node, path, kernel);
        assert (found + [kernel])[|found|] == kernel;
        assert SkippedFor(graph.View(), how, found + [kernel], node, path);
      } else {
        assert SkippedFor(graph.View(), how, found, node, path);
      }
    }
  }

  lemma StaysSought(g: GraphState, how: Search, found: seq<Net>, kernel: Net, n: nat)
    requires n in Sought(g, how, found)
    ensures n in Sought(g, how, found + [kernel])
  {
    if ReachPlus(g.edges, n, n) {
      var path :| SkippedFor(g, how, found, n, path);
      if i :| 0 <= i < |found| && found[i].nodes <= Stem(path) {
        assert (found + [kernel])[i] == found[i];
      }
      assert SkippedFor(g, how, found + [kernel], n, path);
    }
  }

  ghost predicate KernelsSoFar(g: GraphState, how: Search, found: seq<Net>, done: set<nat>) {
    && (forall i {:trigger found[i]} :: 0 <= i < |found| ==> found[i] in MLKernels(g) && LookedUp(g, how, found[i]))
    && (forall n {:trigger n in done} :: n in done ==> n in Sought(g, how, found))
  }

  lemma OneMoreKernel(g: GraphState, how: Search, found: seq<Net>, done: set<nat>, kernel: Net, node: nat)
    requires KernelsSoFar(g, how, found, done) && kernel in MLKernels(g) && LookedUp(g, how, kernel)
    requires node in Sought(g, how, found + [kernel])
    ensures KernelsSoFar(g, how, found + [kernel], done + {node})
  {
    forall n | n in done ensures n in Sought(g, how, found + [kernel]) {
      StaysSought(g, how, found, kernel, n);
    }
  }

  method LookForNext(graph: ControlGraph, how: Search, node: nat, found0: seq<Net>, ghost done: set<nat>)
    returns (found: seq<Net>)
    requires Valid(graph.View()) && Pricing(how) && node in graph.nodeSet
    requires KernelsSoFar(graph.View(), how, found0, done)
    ensures KernelsSoFar(graph.View(), how, found, done + {node})
  {
    var valid, kernel := LookForKernel(graph, how, node, found0);
    found := found0;
    if valid {
      OneMoreKernel(graph.View(), how, found, done, kernel, node);
      found := found + [kernel];
    }
  }

  /** All eligible kernels of one iteration, in the order of their ids. */
  method FindKernels(graph: ControlGraph, how: Search) returns (found: seq<Net>)
    requires Valid(graph.View()) && Pricing(how)
    ensures forall i :: 0 <= i < |found| ==>
      found[i] in MLKernels(graph.View()) && LookedUp(graph.View(), how, found[i])
    ensures forall n :: n in graph.nodeSet ==> n in Sought(graph.View(), how, found)
  {
    found := [];
    var done: set<nat> := {};
    ghost var g := graph.View();
    while done < graph.nodeSet
      invariant done <= graph.nodeSet && graph.View() == g && KernelsSoFar(g, how, found, done)
      decreases graph.nodeSet - done
    {
      var node :| node in graph.nodeSet && node !in done;
      found := LookForNext(graph, how, node, found, done);
      done := done + {node};
    }
    assert done == graph.nodeSet;
  }

  // ----- contracting the selected kernels -----

  /** Setting a node's probabilities again changes nothing else, and makes them sum to one. */
  lemma ReweighedRun(E0: set<Edge>, r: Run, n: nat)
    requires r in Running(E0) && n in r.g.nodes
    ensures n in r.g.succs && Run(r.home, r.g.(body := Reweighed(r.g.body, r.g.succs[n]))) in After(REACH, E0, r)
  {
    var S, g := r.g.succs[n], r.g;
    var h := g.(body := Reweighed(g.body, S));
    assert S == OutEdges(g.edges, n);
    forall e | e in h.edges ensures Healthy(h.body[e]) {
      assert Healthy(g.body[e]);
      if e in S {
        SumMember(S, FreqIn(g.body), e);
        ShareBounds(g.body[e].freq, Sum(S, FreqIn(g.body)));
      }
    }
    SameShapeEnds(g, h);
    forall e | e in g.edges ensures FreqIn(h.body)(e) == FreqIn(g.body)(e) {
    }
    SumSame(g.edges, FreqIn(h.body), FreqIn(g.body));
  }

  lemma ReweighedSum(g: GraphState, n: nat)
    requires Valid(g) && n in g.nodes && g.succs[n] != {}
    ensures g.succs[n] <= g.body.Keys && WeightSum(g.succs[n], Reweighed(g.body, g.succs[n])) == 1.0
  {
    var S := g.succs[n];
    var after := Reweighed(g.body, S);
    assert S == OutEdges(g.edges, n);
    var e :| e in S;
    PositiveTotal(g, e);
    var T := Sum(S, FreqIn(g.body));
    forall d | d in S ensures FreqIn(after)(d) == FreqIn(g.body)(d) {
    }
    SumSame(S, FreqIn(after), FreqIn(g.body));
    WeightsScale(S, after, T);
    ShareWhole(T);
  }

  /** A kernel is contracted into a new node, whose probabilities are then set again. */
  ghost predicate KernelMade(r: Run, kernel: Net, r': Run, mid: GraphState) {
    && KernelStep(r.g, mid, kernel, r.g.nextNID) && r.g.nextNID in mid.succs
    && r'.home == Move(r.home, kernel.nodes, r.g.nextNID)
    && r'.g == mid.(body := Reweighed(mid.body, mid.succs[r.g.nextNID]))
  }

  ghost predicate KernelContracted(r: Run, kernel: Net, r': Run) {
    exists mid :: KernelMade(r, kernel, r', mid)
  }

  ghost function TakeStep(): (Run, Net, Run) -> bool {
    (r: Run, kernel: Net, r': Run) => KernelContracted(r, kernel, r')
  }

  /** Contracting one kernel and balancing the probabilities that come out of the new node. */
  method ContractKernel(graph: ControlGraph, kernel: Net, ghost E0: set<Edge>, home0: map<nat, nat>)
    returns (home: map<nat, nat>, ghost mid: GraphState)
    requires Run(home0, graph.View()) in Running(E0) && kernel.nodes <= graph.nodeSet && Kernel(graph.edgeSet, kernel)
    modifies graph
    ensures KernelMade(Run(home0, old(graph.View())), kernel, Run(home, graph.View()), mid)
    ensures Run(home, graph.View()) in After(REACH, E0, Run(home0, old(graph.View())))
  {
    ghost var r := Run(home0, graph.View());
    RunIsValid(E0, r);
    KernelReady(r.g, kernel);
    var made := graph.VirtualizeSubgraph(kernel);
    var vn := made.value;
    mid := graph.View();
    KernelAfter(E0, r, mid, kernel, vn);
    home := Move(home0, kernel.nodes, vn);
    ReweighedRun(E0, Run(home, mid), vn);
    graph.Reweigh(vn);
    AfterTrans(REACH, E0, r, Run(home, mid), Run(home, graph.View()));
  }

  /** The selected kernels from the i-th on, in the graph as it is by then. */
  ghost predicate Waiting(g: GraphState, found: seq<Net>, kept: set<int>, i: nat) {
    forall k :: i <= k < |found| && k in kept ==> found[k].nodes <= g.nodes && Kernel(g.edges, found[k])
  }

  ghost predicate KeptApart(found: seq<Net>, kept: set<int>) {
    forall i, j :: 0 <= i < j < |found| && i in kept && j in kept ==> found[i].nodes !! found[j].nodes
  }

  lemma StillWaiting(g0: GraphState, h: GraphState, found: seq<Net>, kept: set<int>, i: nat, vn: nat)
    requires i < |found| && i in kept && KeptApart(found, kept) && Waiting(g0, found, kept, i)
    requires KernelStep(g0, h, found[i], vn)
    ensures Waiting(h, found, kept, i + 1)
  {
    FreshId(g0);
    forall k | i + 1 <= k < |found| && k in kept ensures found[k].nodes <= h.nodes && Kernel(h.edges, found[k]) {
      assert found[i].nodes !! found[k].nodes;
      KernelSurvives(g0.edges, found[i], vn, found[k]);
    }
  }

  /** The turn of one kernel. */
  method ContractNext(graph: ControlGraph, found: seq<Net>, kept: set<int>, i: nat, before: seq<Net>,
                      ghost E0: set<Edge>, ghost r0: Run, home0: map<nat, nat>)
    returns (newPointers: seq<Net>, home: map<nat, nat>)
    requires i < |found| && KeptApart(found, kept) && Waiting(graph.View(), found, kept, i)
    requires Run(home0, graph.View()) in After(REACH, E0, r0)
    requires By(TakeStep(), before, r0, Run(home0, graph.View()))
    modifies graph
    ensures Run(home, graph.View()) in After(REACH, E0, r0)
    ensures newPointers == before + (if i in kept then [found[i]] else [])
    ensures By(TakeStep(), newPointers, r0, Run(home, graph.View()))
    ensures Waiting(graph.View(), found, kept, i + 1)
  {
    if i !in kept {
      return before, home0;
    }
    ghost var r := Run(home0, graph.View());
    ghost var mid;
    home, mid := ContractKernel(graph, found[i], E0, home0);
    newPointers := before + [found[i]];
    StillWaiting(r.g, mid, found, kept, i, r.g.nextNID);
    AfterTrans(REACH, E0, r0, r, Run(home, graph.View()));
    KernelTaken(r0, r, Run(home, graph.View()), before, found[i], mid);
  }

  lemma KernelTaken(r0: Run, r: Run, r': Run, before: seq<Net>, kernel: Net, mid: GraphState)
    requires By(TakeStep(), before, r0, r) && KernelMade(r, kernel, r', mid)
    ensures By(TakeStep(), before + [kernel], r0, r')
  {
    assert KernelContracted(r, kernel, r');
    ByOneMore(TakeStep(), before, r0, r, kernel, r');
  }

  /** Each kernel goes into a new node of its own and costs at least one edge. */
  lemma KernelsMove(kernels: seq<Net>, r: Run, r': Run)
    requires By(TakeStep(), kernels, r, r')
    ensures r'.home == Gathered(r.home, kernels, |kernels|, r.g.nextNID)
    ensures |r'.g.edges| + |kernels| <= |r.g.edges|
    ensures kernels == [] ==> r' == r
  {
    forall x, sub, y | TakeStep()(x, sub, y) ensures MovesInto(x, sub, y) {
      KernelMoves(x, sub, y);
    }
    AllMove(TakeStep(), kernels, r, r');
    if kernels == [] {
      ByNothing(TakeStep(), kernels, r, r');
    }
  }

  lemma KernelMoves(r: Run, kernel: Net, r': Run)
    requires KernelContracted(r, kernel, r')
    ensures MovesInto(r, kernel, r')
  {
    var mid :| KernelMade(r, kernel, r', mid);
    KernelReady(r.g, kernel);
    FreshId(r.g);
    QuotientIsSmaller(r.g.edges, kernel, r.g.nextNID);
  }

  /** The selected ones of the first i, in order. */
  ghost function TakenFrom(found: seq<Net>, kept: set<int>, i: nat): seq<Net>
    requires i <= |found|
  {
    if i == 0 then [] else TakenFrom(found, kept, i - 1) + (if i - 1 in kept then [found[i - 1]] else [])
  }

  lemma {:induction false} PickedAll(found: seq<Net>, kept: set<int>, i: nat)
    requires i <= |found|
    ensures forall k :: 0 <= k < i && k in kept ==> found[k] in TakenFrom(found, kept, i)
    ensures forall sub :: sub in TakenFrom(found, kept, i) ==> exists k :: 0 <= k < i && k in kept && found[k] == sub
  {
    if i > 0 {
      PickedAll(found, kept, i - 1);
    }
  }

  /** What all selected ones are, all picked ones are. */
  lemma PickedHave(found: seq<Net>, kept: set<int>, P: iset<Net>)
    requires forall k {:trigger found[k]} :: 0 <= k < |found| && k in kept ==> found[k] in P
    ensures forall sub :: sub in TakenFrom(found, kept, |found|) ==> sub in P
  {
    PickedAll(found, kept, |found|);
  }

  lemma {:induction false} PickedApart(found: seq<Net>, kept: set<int>, i: nat)
    requires i <= |found| && KeptApart(found, kept)
    ensures NodesApart(TakenFrom(found, kept, i))
    ensures forall sub, k :: sub in TakenFrom(found, kept, i) && i <= k < |found| && k in kept ==>
      sub.nodes !! found[k].nodes
  {
    if i > 0 {
      PickedApart(found, kept, i - 1);
      PickedAll(found, kept, i - 1);
      var before, after := TakenFrom(found, kept, i - 1), TakenFrom(found, kept, i);
      forall a, b | 0 <= a < b < |after| ensures after[a].nodes !! after[b].nodes {
        assert before[a] in before;
      }
    }
  }

  /** VirtualizeKernels: every selected kernel, in order. */
  method VirtualizeKernels(graph: ControlGraph, found: seq<Net>, kept: set<int>, ghost E0: set<Edge>,
                           home0: map<nat, nat>)
    returns (newPointers: seq<Net>, home: map<nat, nat>)
    requires Run(home0, graph.View()) in Running(E0)
    requires KeptApart(found, kept) && Waiting(graph.View(), found, kept, 0)
    modifies graph
    ensures Run(home, graph.View()) in After(REACH, E0, Run(home0, old(graph.View())))
    ensures newPointers == TakenFrom(found, kept, |found|)
    ensures By(TakeStep(), newPointers, Run(home0, old(graph.View())), Run(home, graph.View()))
  {
    ghost var r0 := Run(home0, graph.View());
    AfterSelf(REACH, E0, r0);
    ByNone(TakeStep(), r0);
    home, newPointers := home0, [];
    for i := 0 to |found|
      invariant Run(home, graph.View()) in After(REACH, E0, r0)
      invariant Waiting(graph.View(), found, kept, i)
      invariant newPointers == TakenFrom(found, kept, i)
      invariant By(TakeStep(), newPointers, r0, Run(home, graph.View()))
    {
      newPointers, home := ContractNext(graph, found, kept, i, newPointers, E0, r0, home);
    }
  }
}
