/** Kernels: the nodes of a cycle with every edge between them, and what contracting one does. */
module Kernels {
  import opened Graphs
  import opened Sets
  import opened CycleSearch
  import opened Regions
  import opened Contraction
  import opened ShortestPath
  import opened ControlState
  import opened Flow
  import opened Runs

  /** All edges between the nodes. */
  function Induced(E: set<Edge>, N: set<nat>): set<Edge> {
    set e | e in E && e.src in N && e.snk in N
  }

  function KernelNet(E: set<Edge>, N: set<nat>): Net {
    Net(N, Induced(E, N))
  }

  /** getEntrances and getExits of a kernel: the edges across its boundary. */
  function Entering(E: set<Edge>, N: set<nat>): set<Edge> {
    set e | e in E && e.src !in N && e.snk in N
  }

  function Leaving(E: set<Edge>, N: set<nat>): set<Edge> {
    set e | e in E && e.src in N && e.snk !in N
  }

  /** The nodes of a closed walk, with all edges between them. */
  ghost predicate Kernel(E: set<Edge>, sub: Net) {
    && sub == KernelNet(E, sub.nodes) && sub.edges != {}
    && Looped(E, sub)
  }

  /** A kernel leaves no edge between its nodes outside: nothing inside it is an entrance. */
  lemma KernelHoldsAll(E: set<Edge>, sub: Net, e: Edge)
    requires Kernel(E, sub) && e in E && e.src in sub.nodes && e.snk in sub.nodes
    ensures e in sub.edges
  {
  }

  // ----- the nodes of a closed walk reach each other along edges between them -----

  lemma StemWalk(E: set<Edge>, p: seq<nat>, i: nat, j: nat)
    requires IsWalk(E, p) && |p| >= 2 && p[0] == p[|p| - 1] && i <= j < |p|
    ensures Reach(Induced(E, Stem(p)), p[i], p[j])
  {
    var I := Induced(E, Stem(p));
    if i == j {
      ReachRefl(I, p[i]);
    } else {
      StemWalk(E, p, i, j - 1);
      assert Edge(p[j - 1], p[j - 1 + 1]) in E;
      assert p[j] in Stem(p) by {
        if j == |p| - 1 {
          assert p[0] in Stem(p);
        }
      }
      ReachSnoc(I, p[i], Edge(p[j - 1], p[j]));
    }
  }

  lemma ClosedWalkIsKernel(E: set<Edge>, p: seq<nat>)
    requires IsWalk(E, p) && |p| >= 2 && p[0] == p[|p| - 1]
    ensures Kernel(E, KernelNet(E, Stem(p)))
  {
    var N, last := Stem(p), |p| - 1;
    var I := Induced(E, N);
    forall a, b | a in N && b in N ensures Reach(I, a, b) {
      var i :| 0 <= i < last && p[i] == a;
      var j :| 0 <= j < last && p[j] == b;
      StemWalk(E, p, i, last);
      StemWalk(E, p, 0, j);
      ReachTrans(I, a, p[0], b);
    }
    assert p[0] in N;
    var e := Edge(p[0], p[0 + 1]);
    assert e in E && e.snk in N by {
      if last == 1 {
        assert e.snk == p[0];
      }
    }
    assert e in I;
  }

  /** Every node of a kernel has a successor inside it. */
  lemma KernelGoesOn(E: set<Edge>, sub: Net, n: nat)
    requires Kernel(E, sub) && n in sub.nodes
    ensures OutEdges(E, n) != {}
  {
    var e :| e in sub.edges;
    if e.src == n {
      assert e in OutEdges(E, n);
    } else {
      ReachIsPlus(sub.edges, n, e.src);
      var f :| f in sub.edges && f.src == n && Reach(sub.edges, f.snk, e.src);
      assert f in OutEdges(E, n);
    }
  }

  // ----- contracting a kernel -----

  ghost predicate KernelStep(g0: GraphState, h: GraphState, sub: Net, vn: nat) {
    && Contractible(g0, sub, vn) && Kernel(g0.edges, sub) && Virtualized(g0, h, sub, vn)
  }

  lemma KernelEnding(g0: GraphState, h: GraphState, sub: Net, vn: nat)
    requires KernelStep(g0, h, sub, vn) && Ending(g0)
    ensures Ending(h)
  {
    var e :| e in sub.edges;
    assert e.src in sub.nodes;
    forall n | n in sub.nodes ensures OutEdges(g0.edges, n) != {} {
      KernelGoesOn(g0.edges, sub, n);
    }
    EndingMoves(g0, h, sub, vn);
  }

  /** Contracting any kernel keeps all journeys between nodes that stay apart, and adds no cycle. */
  lemma KernelAfter(E0: set<Edge>, r: Run, h: GraphState, sub: Net, vn: nat)
    requires r in Running(E0) && KernelStep(r.g, h, sub, vn)
    ensures Run(Move(r.home, sub.nodes, vn), h) in After(REACH, E0, r) && |h.edges| < |r.g.edges|
  {
    var e :| e in sub.edges;
    assert e.src in sub.nodes;
    FreshHome(r.g, r.home);
    MovedHome(r.home, r.g.nodes, sub.nodes, vn);
    KernelEnding(r.g, h, sub, vn);
    SoundStep(E0, r.g.edges, r.home, sub, vn);
    SolidStep(r.g, h, sub, vn);
    StepIsLighter(r.g, h, sub, vn);
  }

  // ----- kernels with one way in and one way out -----

  ghost predicate OneWay(E: set<Edge>, sub: Net) {
    Kernel(E, sub) && |Entering(E, sub.nodes)| == 1 && |Leaving(E, sub.nodes)| == 1
  }

  /** A loop with one way in and one way out is contracted into a new node. */
  ghost predicate LoopContracted(r: Run, sub: Net, r': Run) {
    && OneWay(r.g.edges, sub) && KernelStep(r.g, r'.g, sub, r.g.nextNID)
    && r'.home == Move(r.home, sub.nodes, r.g.nextNID)
  }

  ghost function LoopStep(): (Run, Net, Run) -> bool {
    (r: Run, sub: Net, r': Run) => LoopContracted(r, sub, r')
  }

  lemma OneWayIsNarrow(E: set<Edge>, sub: Net, vn: nat)
    requires OneWay(E, sub) && Fresh(E, vn)
    ensures Narrow(E, sub, vn)
  {
    var S, N := E - sub.edges, sub.nodes;
    forall e, d | e in S && d in S && RepEdge(N, vn, e) == RepEdge(N, vn, d) ensures e == d {
      if e.snk in N {
        AtMostOne(Entering(E, N), e, d);
      } else if e.src in N {
        AtMostOne(Leaving(E, N), e, d);
      }
    }
  }

  /** Contracting a kernel with one way in and one way out keeps the profile behind every edge. */
  lemma OneWayAfter(E0: set<Edge>, r: Run, h: GraphState, sub: Net, vn: nat)
    requires r in Running(E0) && KernelStep(r.g, h, sub, vn) && OneWay(r.g.edges, sub)
    ensures Run(Move(r.home, sub.nodes, vn), h) in After(PROFILE, E0, r) && |h.edges| < |r.g.edges|
  {
    KernelAfter(E0, r, h, sub, vn);
    FreshHome(r.g, r.home);
    OneWayIsNarrow(r.g.edges, sub, vn);
    if Traced(E0, r.home, r.g) {
      TracedStep(E0, r.home, r.g, h, sub, vn);
    }
  }

  lemma OneWayOut(E: set<Edge>, sub: Net, vn: nat, x: Edge)
    requires OneWay(E, sub) && Fresh(E, vn) && x in Leaving(E, sub.nodes)
    ensures OutEdges(Quotient(E, sub, vn), vn) == {Edge(vn, x.snk)}
  {
    forall p | p in OutEdges(Quotient(E, sub, vn), vn) ensures p == Edge(vn, x.snk) {
      var e := QuotientEdge(E, sub, vn, p);
      assert e in Leaving(E, sub.nodes);
      AtMostOne(Leaving(E, sub.nodes), e, x);
    }
    assert RepEdge(sub.nodes, vn, x) in Quotient(E, sub, vn);
  }

  lemma ExitKeepsWeight(g0: GraphState, h: GraphState, sub: Net, vn: nat, x: Edge)
    requires KernelStep(g0, h, sub, vn) && OneWay(g0.edges, sub) && Normal(g0) && x in Leaving(g0.edges, sub.nodes)
    ensures Edge(vn, x.snk) in h.edges && h.body[Edge(vn, x.snk)].weight == g0.body[x].weight
  {
    FreshId(g0);
    OneWayIsNarrow(g0.edges, sub, vn);
    MovedExit(g0, h, sub, vn, x);
    LeavesPart(g0, sub, x);
    ExitWeightIsShare(g0.body[x], Sum(OutEdges(g0.edges, x.src), FreqIn(g0.body)));
  }

  /** The one exit keeps the probability it had inside the kernel, and that is below one: the
      probabilities out of the new node never sum to one. */
  lemma OneWayLeaks(g0: GraphState, h: GraphState, sub: Net, vn: nat)
    requires KernelStep(g0, h, sub, vn) && OneWay(g0.edges, sub) && Normal(g0)
    ensures vn in h.succs && h.succs[vn] <= h.body.Keys
    ensures 0.0 < WeightSum(h.succs[vn], h.body) < 1.0
  {
    FreshId(g0);
    var x :| x in Leaving(g0.edges, sub.nodes);
    LeavesPart(g0, sub, x);
    ExitKeepsWeight(g0, h, sub, vn, x);
    OneWayOut(g0.edges, sub, vn, x);
    assert h.succs[vn] == {Edge(vn, x.snk)};
    WeightOne(Edge(vn, x.snk), h.body);
  }

  /** An exit of a kernel gets only part of what its source passes on. */
  lemma LeavesPart(g: GraphState, sub: Net, x: Edge)
    requires Valid(g) && Normal(g) && Kernel(g.edges, sub) && x in Leaving(g.edges, sub.nodes)
    ensures 0 < g.body[x].freq <= Sum(OutEdges(g.edges, x.src), FreqIn(g.body))
    ensures 0.0 < g.body[x].weight < 1.0
    ensures g.body[x].weight == g.body[x].freq as real / Sum(OutEdges(g.edges, x.src), FreqIn(g.body)) as real
  {
    var O, f := OutEdges(g.edges, x.src), FreqIn(g.body);
    PositiveTotal(g, x);
    var e :| e in sub.edges;
    var i := if e.src == x.src then e else InnerStep(g.edges, sub, x.src, e.src);
    assert i in O && i != x;
    SumTake(O, f, x);
    SumMember(O - {x}, f, i);
    assert Healthy(g.body[i]);
    StrictShare(g.body[x].freq, Sum(O, f));
  }

  lemma StrictShare(a: nat, b: nat)
    requires 0 < a < b
    ensures 0.0 < a as real / b as real < 1.0
  {
    assert (a as real / b as real) * b as real == a as real;
  }

  ghost function InnerStep(E: set<Edge>, sub: Net, a: nat, b: nat): (i: Edge)
    requires Kernel(E, sub) && a in sub.nodes && b in sub.nodes && a != b
    ensures i in sub.edges && i.src == a
  {
    ReachIsPlus(sub.edges, a, b);
    var i :| i in sub.edges && i.src == a && Reach(sub.edges, i.snk, b);
    i
  }

  // ----- contracting one kernel leaves the others alone -----

  lemma InducedApart(E: set<Edge>, sub: Net, vn: nat, M: set<nat>)
    requires WellFormed(sub) && sub.nodes !! M && vn !in M && Fresh(E, vn)
    ensures Induced(Quotient(E, sub, vn), M) == Induced(E, M)
  {
    forall q | q in Induced(Quotient(E, sub, vn), M) ensures q in Induced(E, M) {
      var e := QuotientEdge(E, sub, vn, q);
    }
    forall e | e in Induced(E, M) ensures e in Induced(Quotient(E, sub, vn), M) {
      assert e !in sub.edges;
      assert RepEdge(sub.nodes, vn, e) == e;
    }
  }

  lemma KernelSurvives(E: set<Edge>, sub: Net, vn: nat, other: Net)
    requires WellFormed(sub) && Kernel(E, other) && sub.nodes !! other.nodes && vn !in other.nodes && Fresh(E, vn)
    ensures Kernel(Quotient(E, sub, vn), other)
  {
    InducedApart(E, sub, vn, other.nodes);
  }

  lemma BoundaryMoves(E: set<Edge>, sub: Net, vn: nat, M: set<nat>)
    requires WellFormed(sub) && sub.nodes !! M && vn !in M && Fresh(E, vn)
    ensures Entering(Quotient(E, sub, vn), M) == set e | e in Entering(E, M) :: RepEdge(sub.nodes, vn, e)
    ensures Leaving(Quotient(E, sub, vn), M) == set e | e in Leaving(E, M) :: RepEdge(sub.nodes, vn, e)
  {
    var Q := Quotient(E, sub, vn);
    forall q | q in Entering(Q, M) ensures exists e :: e in Entering(E, M) && q == RepEdge(sub.nodes, vn, e) {
      var e := QuotientEdge(E, sub, vn, q);
      assert e in Entering(E, M);
    }
    forall q | q in Leaving(Q, M) ensures exists e :: e in Leaving(E, M) && q == RepEdge(sub.nodes, vn, e) {
      var e := QuotientEdge(E, sub, vn, q);
      assert e in Leaving(E, M);
    }
    forall e | e in Entering(E, M) + Leaving(E, M) ensures RepEdge(sub.nodes, vn, e) in Q {
      assert e !in sub.edges;
    }
  }

  lemma OneImage(S: set<Edge>, N: set<nat>, vn: nat)
    requires |S| == 1
    ensures |set e | e in S :: RepEdge(N, vn, e)| == 1
  {
    var x :| x in S;
    forall e | e in S ensures e == x {
      AtMostOne(S, e, x);
    }
    assert (set e | e in S :: RepEdge(N, vn, e)) == {RepEdge(N, vn, x)};
  }

  lemma OneWaySurvives(E: set<Edge>, sub: Net, vn: nat, other: Net)
    requires WellFormed(sub) && OneWay(E, other) && sub.nodes !! other.nodes && vn !in other.nodes && Fresh(E, vn)
    ensures OneWay(Quotient(E, sub, vn), other)
  {
    KernelSurvives(E, sub, vn, other);
    BoundaryMoves(E, sub, vn, other.nodes);
    OneImage(Entering(E, other.nodes), sub.nodes, vn);
    OneImage(Leaving(E, other.nodes), sub.nodes, vn);
  }
}
