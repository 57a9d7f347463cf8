/** Cycles of the control graph: the cheapest cycle through a node as a kernel, and
    LowFrequencyLoopTransform, which contracts rarely executed kernels. */
module LoopTransforms {
  import opened Graphs
  import opened Traces
  import opened CycleSearch
  import opened Regions
  import opened Contraction
  import opened Deque
  import opened ShortestPath
  import opened ControlState
  import opened Flow
  import opened Runs
  import opened Kernels
  import opened ControlGraphs

  const MIN_ANCHOR: nat := 16
  const UINT64_MAX: nat := 0xFFFF_FFFF_FFFF_FFFF

  /** How cycles are looked up: a price for probabilities, standing for their negated logarithm, and
      the sort of the deque. */
  datatype Search = Search(price: real -> real, sort: Sorting)

  /** No price is negative, and the sort leaves a cheapest front in place. */
  ghost predicate Pricing(how: Search) {
    && (forall w: real :: 0.0 < w <= 1.0 ==> how.price(w) >= 0.0)
    && Sorts(how.sort) && Steady(how.sort)
  }

  /** The price of every edge. */
  ghost function CostsOf(body: map<Edge, Body>, how: Search): Costs {
    map e | e in body :: how.price(body[e].weight)
  }

  lemma ReadyToPrice(g: GraphState, how: Search)
    requires Valid(g) && Pricing(how)
    ensures Searchable(NetOf(g), g.succs, CostsOf(g.body, how)) && Visible(NetOf(g), g.succs) == g.edges
  {
    ValidIsMirrored(g);
    forall e | e in g.body ensures how.price(g.body[e].weight) >= 0.0 {
      assert e in g.edges && Healthy(g.body[e]);
    }
  }

  // ----- the kernel of a node -----

  /** The cheapest closed walks through n, at the costs the search minimises; and at the
      given costs, unless there is a self-edge which is not the cheapest way round. */
  ghost function CyclesAt(g: GraphState, how: Search, n: nat): iset<seq<nat>>
    requires Valid(g)
  {
    var c := CostsOf(g.body, how);
    iset path: seq<nat> |
    && (exists late :: LateEdges(g.edges, n, late) && Cheapest(g.edges, Inflated(c, n, late), n, n, path))
    && (Edge(n, n) !in g.edges || SelfIsCheapest(g.edges, c, n) ==> Cheapest(g.edges, c, n, n, path))
  }

  ghost predicate KernelOf(g: GraphState, how: Search, n: nat, path: seq<nat>, kernel: Net)
    requires Valid(g)
  {
    n in g.nodes && path in CyclesAt(g, how, n) && kernel == KernelNet(g.edges, Stem(path))
  }

  /** The kernel of a cheapest cycle through some node. */
  ghost predicate LookedUp(g: GraphState, how: Search, kernel: Net) {
    Valid(g) && exists n, path :: KernelOf(g, how, n, path, kernel)
  }

  /** The nodes of a cheapest cycle through n, none when n is on no cycle. */
  method MinCycle(graph: ControlGraph, how: Search, n: nat) returns (nodes: set<nat>, ghost path: seq<nat>)
    requires Valid(graph.View()) && Pricing(how) && n in graph.nodeSet
    ensures nodes != {} <==> ReachPlus(graph.edgeSet, n, n)
    ensures nodes != {} ==> path in CyclesAt(graph.View(), how, n) && nodes == Stem(path)
    ensures nodes != {} ==>
      n in nodes && nodes <= graph.nodeSet && Kernel(graph.edgeSet, KernelNet(graph.edgeSet, nodes))
  {
    ReadyToPrice(graph.View(), how);
    ghost var late;
    var costs := map e | e in graph.body :: how.price(graph.body[e].weight);
    assert costs == CostsOf(graph.body, how);
    nodes, path, late := Dijkstras(Net(graph.nodeSet, graph.edgeSet), graph.succs, costs, n, n, how.sort);
    if nodes != {} {
      AnswerIsCycle(graph.View(), how, n, nodes, path, late);
      CycleIsKernel(graph.View(), n, path);
    }
  }

  lemma AnswerIsCycle(g: GraphState, how: Search, n: nat, nodes: set<nat>, path: seq<nat>, late: set<Edge>)
    requires Valid(g) && Pricing(how) && nodes != {}
    requires Answers(g.edges, CostsOf(g.body, how), n, n, nodes, path, late)
    ensures path in CyclesAt(g, how, n)
  {
    ReadyToPrice(g, how);
    if Edge(n, n) !in g.edges || SelfIsCheapest(g.edges, CostsOf(g.body, how), n) {
      CycleAnswer(g.edges, CostsOf(g.body, how), n, nodes, path, late);
    }
  }

  lemma CycleIsKernel(g: GraphState, n: nat, path: seq<nat>)
    requires Valid(g) && Walk(g.edges, n, n, path) && |path| >= 2
    ensures n in Stem(path) && Stem(path) <= g.nodes && Kernel(g.edges, KernelNet(g.edges, Stem(path)))
  {
    ClosedWalkIsKernel(g.edges, path);
    assert path[0] in Stem(path);
    forall m | m in Stem(path) ensures m in g.nodes {
      var i :| 0 <= i < |path| - 1 && path[i] == m;
      assert Edge(path[i], path[i + 1]) in g.edges;
    }
  }

  /** The kernel object: the nodes with every edge they hold whose other end is one of them. */
  method CaptureKernel(graph: ControlGraph, nodes: set<nat>) returns (kernel: Net)
    requires Valid(graph.View()) && nodes <= graph.nodeSet
    ensures kernel == KernelNet(graph.edgeSet, nodes)
  {
    kernel := Net(nodes, (set n, e | n in nodes && e in graph.preds[n] && e.src in nodes :: e)
                       + (set n, e | n in nodes && e in graph.succs[n] && e.snk in nodes :: e));
    HeldIsInduced(graph.View(), nodes);
  }

  lemma HeldIsInduced(g: GraphState, nodes: set<nat>)
    requires Valid(g) && nodes <= g.nodes
    ensures (set n, e | n in nodes && e in g.preds[n] && e.src in nodes :: e)
          + (set n, e | n in nodes && e in g.succs[n] && e.snk in nodes :: e) == Induced(g.edges, nodes)
  {
    forall e | e in Induced(g.edges, nodes) ensures e in g.preds[e.snk] {
    }
  }

  /** The edges that enter and that leave a kernel. */
  method CrossKernel(graph: ControlGraph, kernel: Net) returns (entrances: set<Edge>, exits: set<Edge>)
    requires Valid(graph.View()) && kernel.nodes <= graph.nodeSet && kernel == KernelNet(graph.edgeSet, kernel.nodes)
    ensures entrances == Entering(graph.edgeSet, kernel.nodes) && exits == Leaving(graph.edgeSet, kernel.nodes)
  {
    entrances := set n, e | n in kernel.nodes && e in graph.preds[n] && e !in kernel.edges :: e;
    exits := set n, e | n in kernel.nodes && e in graph.succs[n] && e !in kernel.edges :: e;
    CrossingEdges(graph.View(), kernel);
  }

  lemma CrossingEdges(g: GraphState, kernel: Net)
    requires Valid(g) && kernel.nodes <= g.nodes && kernel == KernelNet(g.edges, kernel.nodes)
    ensures (set n, e | n in kernel.nodes && e in g.preds[n] && e !in kernel.edges ::
          e) == Entering(g.edges, kernel.nodes)
    ensures (set n, e | n in kernel.nodes && e in g.succs[n] && e !in kernel.edges ::
          e) == Leaving(g.edges, kernel.nodes)
  {
    var N := kernel.nodes;
    assert kernel.edges == Induced(g.edges, N);
    forall e ensures e in Entering(g.edges, N) <==> exists n :: n in N && e in g.preds[n] && e !in kernel.edges {
      if e in Entering(g.edges, N) {
        assert e in g.preds[e.snk];
      }
    }
    forall e ensures e in Leaving(g.edges, N) <==> exists n :: n in N && e in g.succs[n] && e !in kernel.edges {
      if e in Leaving(g.edges, N) {
        assert e in g.succs[e.src];
      }
    }
  }

  // ----- how often a kernel is entered -----

  /** How often a node was executed. */
  ghost function Visits(g: GraphState, n: nat): nat
    requires n in g.preds
  {
    Sum(g.preds[n], FreqIn(g.body))
  }

  /** getAnchor: the frequency of the most executed node. */
  method AnchorOf(graph: ControlGraph, kernel: Net) returns (anchor: nat)
    requires kernel.nodes <= graph.preds.Keys
    ensures forall n :: n in kernel.nodes ==> Visits(graph.View(), n) <= anchor
    ensures anchor == 0 || exists n :: n in kernel.nodes && Visits(graph.View(), n) == anchor
  {
    anchor := 0;
    var done: set<nat> := {};
    while done < kernel.nodes
      invariant done <= kernel.nodes
      invariant forall n :: n in done ==> Visits(graph.View(), n) <= anchor
      invariant anchor == 0 || exists n :: n in done && Visits(graph.View(), n) == anchor
      decreases kernel.nodes - done
    {
      var node :| node in kernel.nodes && node !in done;
      var count := TotalOf(graph.preds[node], graph.body);
      assert count == Visits(graph.View(), node);
      if count > anchor {
        anchor := count;
      }
      done := done + {node};
    }
    assert done == kernel.nodes;
  }

  // ----- low-frequency loops -----

  /** One way in, one way out, and no node executed often. */
  ghost function LowLoops(g: GraphState): iset<Net> {
    iset kernel: Net | && Valid(g) && kernel.nodes <= g.nodes && OneWay(g.edges, kernel)
                       && forall n :: n in kernel.nodes ==> Visits(g, n) < MIN_ANCHOR
  }

  /** The cycle looked up for a node is no low-frequency loop, or shares a node with one of these. */
  ghost predicate Passed(g: GraphState, how: Search, loops: seq<Net>, n: nat, path: seq<nat>) {
    && Valid(g) && path in CyclesAt(g, how, n)
    && (KernelNet(g.edges, Stem(path)) in LowLoops(g) ==> exists i ::
          0 <= i < |loops| && !(loops[i].nodes !! Stem(path)))
  }

  /** The nodes dealt with: on no cycle, or with a cycle that was passed over or taken. */
  ghost function DealtWith(g: GraphState, how: Search, loops: seq<Net>): iset<nat> {
    iset n: nat | ReachPlus(g.edges, n, n) ==> exists path :: Passed(g, how, loops, n, path)
  }

  /** The test on one kernel. */
  method IsLowLoop(graph: ControlGraph, kernel: Net) returns (valid: bool)
    requires Valid(graph.View()) && kernel.nodes <= graph.nodeSet && Kernel(graph.edgeSet, kernel)
    ensures valid <==> kernel in LowLoops(graph.View())
  {
    var entrances, exits := CrossKernel(graph, kernel);
    var anchor := AnchorOf(graph, kernel);
    valid := true;
    if |entrances| != 1 || |exits| != 1 {
      valid := false;
    }
    if anchor >= MIN_ANCHOR {
      valid := false;
    }
  }

  /** Does the kernel share a node with one found before? */
  method Overlaps(loops: seq<Net>, nodes: set<nat>) returns (shared: bool)
    ensures shared <==> exists i :: 0 <= i < |loops| && !(loops[i].nodes !! nodes)
  {
    shared := false;
    for i := 0 to |loops|
      invariant !shared
      invariant forall k :: 0 <= k < i ==> loops[k].nodes !! nodes
    {
      if !(loops[i].nodes !! nodes) {
        return true;
      }
    }
  }

  /** The search of the transform: the low-frequency loops among the cycles looked up node by
      node, each apart from those found before. */
  method FindLowLoops(graph: ControlGraph, how: Search) returns (loops: seq<Net>)
    requires Valid(graph.View()) && Pricing(how)
    ensures LoopsFound(graph.View(), how, loops, graph.nodeSet)
  {
    loops := [];
    var done: set<nat> := {};
    ghost var g := graph.View();
    while done < graph.nodeSet
      invariant done <= graph.nodeSet && graph.View() == g
      invariant LoopsFound(g, how, loops, done)
      decreases graph.nodeSet - done
    {
      var node :| node in graph.nodeSet && node !in done;
      loops := LookNext(graph, how, node, loops, done);
      done := done + {node};
    }
    assert done == graph.nodeSet;
  }

  /** Low-frequency loops looked up for some node, apart from each other; and the loop looked up for
      a node done is no low-frequency loop, or shares a node with one of them. */
  ghost predicate LoopsFound(g: GraphState, how: Search, loops: seq<Net>, done: set<nat>) {
    && NodesApart(loops)
    && (forall i {:trigger loops[i]} :: 0 <= i < |loops| ==> loops[i] in LowLoops(g) && LookedUp(g, how, loops[i]))
    && (forall n {:trigger n in done} :: n in done ==> n in DealtWith(g, how, loops))
  }

  lemma StillApart(loops: seq<Net>, loop: Net)
    requires NodesApart(loops) && forall i :: 0 <= i < |loops| ==> loops[i].nodes !! loop.nodes
    ensures NodesApart(loops + [loop])
  {
  }

  lemma StillSettled(g: GraphState, how: Search, loops: seq<Net>, done: set<nat>, loop: Net)
    requires forall n {:trigger n in done} :: n in done ==> n in DealtWith(g, how, loops)
    ensures forall n {:trigger n in done} :: n in done ==> n in DealtWith(g, how, loops + [loop])
  {
    forall n | n in done ensures n in DealtWith(g, how, loops + [loop]) {
      StaysSettled(g, how, loops, loop, n);
    }
  }

  lemma OneMore(g: GraphState, how: Search, loops: seq<Net>, done: set<nat>, loop: Net, node: nat)
    requires LoopsFound(g, how, loops, done) && loop in LowLoops(g) && LookedUp(g, how, loop)
    requires node in DealtWith(g, how, loops + [loop])
    requires forall i :: 0 <= i < |loops| ==> loops[i].nodes !! loop.nodes
    ensures LoopsFound(g, how, loops + [loop], done + {node})
  {
    StillApart(loops, loop);
    StillSettled(g, how, loops, done, loop);
  }

  method LookNext(graph: ControlGraph, how: Search, node: nat, loops0: seq<Net>, ghost done: set<nat>)
    returns (loops: seq<Net>)
    requires Valid(graph.View()) && Pricing(how) && node in graph.nodeSet
    requires LoopsFound(graph.View(), how, loops0, done)
    ensures LoopsFound(graph.View(), how, loops, done + {node})
  {
    var found, loop := LookAt(graph, how, node, loops0);
    loops := loops0;
    if found {
      OneMore(graph.View(), how, loops, done, loop, node);
      loops := loops + [loop];
    }
  }

  /** Looking up the cycle of one node. */
  method LookAt(graph: ControlGraph, how: Search, node: nat, loops: seq<Net>) returns (found: bool, loop: Net)
    requires Valid(graph.View()) && Pricing(how) && node in graph.nodeSet
    ensures found ==> loop in LowLoops(graph.View()) && LookedUp(graph.View(), how, loop)
    ensures found ==> (forall i :: 0 <= i < |loops| ==> loops[i].nodes !! loop.nodes)
    ensures node in DealtWith(graph.View(), how, if found then loops + [loop] else loops)
  {
    found, loop := false, EmptyNet;
    var nodeIDs;
    ghost var path;
    nodeIDs, path := MinCycle(graph, how, node);
    if nodeIDs != {} {
      loop := CaptureKernel(graph, nodeIDs);
      var valid := IsLowLoop(graph, loop);
      var shared := Overlaps(loops, nodeIDs);
      found := valid && !shared;
      if found {
        assert KernelOf(graph.View(), how, node, path, loop);
        assert (loops + [loop])[|loops|] == loop && node in loop.nodes * Stem(path);
        assert Passed(graph.View(), how, loops + [loop], node, path);
      } else {
        assert Passed(graph.View(), how, loops, node, path);
      }
    }
  }

  lemma StaysSettled(g: GraphState, how: Search, loops: seq<Net>, loop: Net, n: nat)
    requires n in DealtWith(g, how, loops)
    ensures n in DealtWith(g, how, loops + [loop])
  {
    if ReachPlus(g.edges, n, n) {
      var path :| Passed(g, how, loops, n, path);
      if i :| 0 <= i < |loops| && !(loops[i].nodes !! Stem(path)) {
        assert (loops + [loop])[i] == loops[i];
      }
      assert Passed(g, how, loops + [loop], n, path);
    }
  }

  /** The found loops i and after, in the graph as it is after contracting the ones before. */
  ghost predicate ToContract(g: GraphState, loops: seq<Net>, i: nat) {
    forall k :: i <= k < |loops| ==> loops[k].nodes <= g.nodes && OneWay(g.edges, loops[k])
  }

  /** Contracting one loop leaves the others what they are. */
  lemma StillPending(g0: GraphState, h: GraphState, loops: seq<Net>, i: nat, vn: nat)
    requires i < |loops| && NodesApart(loops) && ToContract(g0, loops, i) && KernelStep(g0, h, loops[i], vn)
    ensures ToContract(h, loops, i + 1)
  {
    FreshId(g0);
    forall k | i + 1 <= k < |loops| ensures loops[k].nodes <= h.nodes && OneWay(h.edges, loops[k]) {
      assert loops[i].nodes !! loops[k].nodes;
      OneWaySurvives(g0.edges, loops[i], vn, loops[k]);
    }
  }

  lemma KernelReady(g: GraphState, sub: Net)
    requires Valid(g) && Kernel(g.edges, sub) && sub.nodes <= g.nodes
    ensures sub.nodes != {} && sub.edges != {} && sub.edges <= g.edges && WellFormed(sub)
  {
    var e :| e in sub.edges;
    assert e.src in sub.nodes;
  }

  /** Contracting one pending loop. */
  method ContractLoop(graph: ControlGraph, loop: Net, ghost E0: set<Edge>, home0: map<nat, nat>)
    returns (home: map<nat, nat>)
    requires Run(home0, graph.View()) in Running(E0) && loop.nodes <= graph.nodeSet && OneWay(graph.edgeSet, loop)
    modifies graph
    ensures LoopContracted(Run(home0, old(graph.View())), loop, Run(home, graph.View()))
    ensures Run(home, graph.View()) in After(PROFILE, E0, Run(home0, old(graph.View())))
  {
    ghost var r := Run(home0, graph.View());
    RunIsValid(E0, r);
    KernelReady(r.g, loop);
    var made := graph.VirtualizeSubgraph(loop);
    OneWayAfter(E0, r, graph.View(), loop, made.value);
    home := Move(home0, loop.nodes, made.value);
  }

  /** Contracting the i-th of them. */
  method ContractNextLoop(graph: ControlGraph, loops: seq<Net>, i: nat, ghost E0: set<Edge>, ghost r0: Run,
                          home0: map<nat, nat>)
    returns (home: map<nat, nat>)
    requires i < |loops| && NodesApart(loops) && ToContract(graph.View(), loops, i)
    requires Run(home0, graph.View()) in After(PROFILE, E0, r0)
    requires By(LoopStep(), loops[..i], r0, Run(home0, graph.View()))
    modifies graph
    ensures Run(home, graph.View()) in After(PROFILE, E0, r0)
    ensures ToContract(graph.View(), loops, i + 1)
    ensures By(LoopStep(), loops[..i + 1], r0, Run(home, graph.View()))
  {
    ghost var r := Run(home0, graph.View());
    home := ContractLoop(graph, loops[i], E0, home0);
    StillPending(r.g, graph.View(), loops, i, r.g.nextNID);
    AfterTrans(PROFILE, E0, r0, r, Run(home, graph.View()));
    OneMoreLoop(r0, r, Run(home, graph.View()), loops, i);
  }

  lemma OneMoreLoop(r0: Run, r: Run, r': Run, loops: seq<Net>, i: nat)
    requires i < |loops| && By(LoopStep(), loops[..i], r0, r) && LoopContracted(r, loops[i], r')
    ensures By(LoopStep(), loops[..i + 1], r0, r')
  {
    ByOneMore(LoopStep(), loops[..i], r0, r, loops[i], r');
    assert loops[..i + 1] == loops[..i] + [loops[i]];
  }

  /** Each of them goes into a new node of its own and costs at least one edge. */
  lemma LoopsMove(loops: seq<Net>, r: Run, r': Run)
    requires By(LoopStep(), loops, r, r')
    ensures r'.home == Gathered(r.home, loops, |loops|, r.g.nextNID)
    ensures |r'.g.edges| + |loops| <= |r.g.edges|
    ensures loops == [] ==> r' == r
  {
    forall x, sub, y | LoopStep()(x, sub, y) ensures MovesInto(x, sub, y) {
      LoopMoves(x, sub, y);
    }
    AllMove(LoopStep(), loops, r, r');
    if loops == [] {
      ByNothing(LoopStep(), loops, r, r');
    }
  }

  lemma LoopMoves(r: Run, loop: Net, r': Run)
    requires LoopContracted(r, loop, r')
    ensures MovesInto(r, loop, r')
  {
    KernelReady(r.g, loop);
    FreshId(r.g);
    QuotientIsSmaller(r.g.edges, loop, r.g.nextNID);
  }

  /** Contracting the found loops, in the order they were found. */
  method ContractLoops(graph: ControlGraph, loops: seq<Net>, ghost E0: set<Edge>, home0: map<nat, nat>)
    returns (home: map<nat, nat>)
    requires Run(home0, graph.View()) in Running(E0) && NodesApart(loops) && ToContract(graph.View(), loops, 0)
    modifies graph
    ensures Run(home, graph.View()) in After(PROFILE, E0, Run(home0, old(graph.View())))
    ensures By(LoopStep(), loops, Run(home0, old(graph.View())), Run(home, graph.View()))
  {
    ghost var r0 := Run(home0, graph.View());
    AfterSelf(PROFILE, E0, r0);
    ByNone(LoopStep(), r0);
    home := home0;
    for i := 0 to |loops|
      invariant Run(home, graph.View()) in After(PROFILE, E0, r0)
      invariant ToContract(graph.View(), loops, i)
      invariant By(LoopStep(), loops[..i], r0, Run(home, graph.View()))
    {
      home := ContractNextLoop(graph, loops, i, E0, r0, home);
    }
    assert loops[..|loops|] == loops;
  }

  /** LowFrequencyLoopTransform. The loop is meant to go on while edges disappear, but the size
      it compares with is read after the contractions: it never goes round twice. */
  method LowFrequencyLoopTransform(graph: ControlGraph, how: Search, ghost E0: set<Edge>, home0: map<nat, nat>)
    returns (home: map<nat, nat>, ghost loops: seq<Net>, ghost rounds: nat)
    requires Run(home0, graph.View()) in Running(E0) && Pricing(how)
    modifies graph
    ensures Run(home, graph.View()) in After(PROFILE, E0, Run(home0, old(graph.View())))
    ensures By(LoopStep(), loops, Run(home0, old(graph.View())), Run(home, graph.View()))
    ensures rounds == if old(graph.edgeSet) == {} then 0 else 1
    ensures LoopsFound(old(graph.View()), how, loops, old(graph.nodeSet))
    ensures home == Gathered(home0, loops, |loops|, old(graph.nextNID))
    ensures |graph.edgeSet| + |loops| <= |old(graph.edgeSet)|
    ensures loops == [] ==> graph.View() == old(graph.View()) && home == home0
  {
    ghost var r0 := Run(home0, graph.View());
    AfterSelf(PROFILE, E0, r0);
    ByNone(LoopStep(), r0);
    home, loops, rounds := home0, [], 0;
    var size := if |graph.edgeSet| == 0 then UINT64_MAX else |graph.edgeSet| - 1;
    while size < |graph.edgeSet|
      invariant Run(home, graph.View()) in After(PROFILE, E0, r0)
      invariant By(LoopStep(), loops, r0, Run(home, graph.View()))
      invariant rounds == 0 ==> Run(home, graph.View()) == r0 && loops == []
      invariant rounds == 0 ==> (size < |graph.edgeSet| <==> graph.edgeSet != {})
      invariant rounds > 0 ==> rounds == 1 && r0.g.edges != {} && size == |graph.edgeSet|
      invariant rounds == 1 ==> LoopsFound(r0.g, how, loops, r0.g.nodes)
      decreases |graph.edgeSet| - size
    {
      RunIsValid(E0, r0);
      var newCycles := FindLowLoops(graph, how);
      FoundPending(graph.View(), how, newCycles);
      home := ContractLoops(graph, newCycles, E0, home);
      size := |graph.edgeSet|;
      loops, rounds := newCycles, rounds + 1;
    }
    LoopsMove(loops, r0, Run(home, graph.View()));
    if rounds == 0 {
      NoEdgesNoLoops(r0.g, how);
    }
  }

  lemma NoEdgesNoLoops(g: GraphState, how: Search)
    requires g.edges == {}
    ensures LoopsFound(g, how, [], g.nodes)
  {
  }

  lemma FoundPending(g: GraphState, how: Search, loops: seq<Net>)
    requires LoopsFound(g, how, loops, g.nodes)
    ensures ToContract(g, loops, 0) && NodesApart(loops)
  {
  }
}
