/** removeUnreachableNodes: a function's graph without the nodes that lie on no path from the
    inlined entrance to an exit. */
module Prune {
  import opened Graphs
  import opened CycleSearch
  import opened ControlState
  import opened ControlGraphs

  /** The graph's edges are held by the nodes at both ends; nodes may hold more, that lead outside. */
  ghost predicate Held(g: GraphState) {
    && WellFormed(NetOf(g)) && g.nodes <= g.succs.Keys && g.nodes <= g.preds.Keys
    && (forall n, e {:trigger e in g.succs[n]} :: n in g.succs && e in g.succs[n] ==> e.src == n)
    && (forall n, e {:trigger e in g.preds[n]} :: n in g.preds && e in g.preds[n] ==> e.snk == n)
    && (forall e {:trigger e in g.edges} :: e in g.edges ==> e in g.succs[e.src] && e in g.preds[e.snk])
  }

  /** n reaches one of the exits. */
  ghost predicate LeadsTo(E: set<Edge>, exits: set<nat>, n: nat) {
    exists x :: x in exits && Reach(E, n, x)
  }

  /** The nodes on a path from the start to an exit. */
  ghost predicate OnPath(E: set<Edge>, start: nat, exits: set<nat>, n: nat) {
    Reach(E, start, n) && LeadsTo(E, exits, n)
  }

  ghost function PathNodes(g: Net, start: nat, exits: set<nat>): set<nat> {
    set n | n in g.nodes && OnPath(g.edges, start, exits, n)
  }

  ghost function Pruned(g: Net, start: nat, exits: set<nat>): Net {
    var K := PathNodes(g, start, exits);
    Net(K, set e | e in g.edges && e.src in K && e.snk in K)
  }

  // ----- what pruning leaves -----

  /** Every kept node still lies on a path from the start to an exit inside the pruned graph. */
  lemma KeptStaysOnPath(g: Net, start: nat, exits: set<nat>, n: nat)
    requires WellFormed(g) && n in PathNodes(g, start, exits)
    ensures OnPath(Pruned(g, start, exits).edges, start, exits, n)
  {
    var x :| x in exits && Reach(g.edges, n, x);
    ReachInNodes(g, start, n);
    FromStart(g, start, exits, n, x);
    ToExit(g, start, exits, n, x);
  }

  lemma FromStart(g: Net, start: nat, exits: set<nat>, n: nat, x: nat)
    requires WellFormed(g) && start in g.nodes && Reach(g.edges, start, n) && x in exits && Reach(g.edges, n, x)
    ensures Reach(Pruned(g, start, exits).edges, start, n)
  {
    var E, F := g.edges, Pruned(g, start, exits).edges;
    var P := (m: nat) => Reach(E, m, n) ==> m in g.nodes && OnPath(E, start, exits, m) && Reach(F, start, m);
    assert P(start) by {
      ReachRefl(E, start);
      ReachRefl(F, start);
      ReachTrans(E, start, n, x);
    }
    forall e | e in E && P(e.src) ensures P(e.snk) {
      if Reach(E, e.snk, n) {
        ReachCons(E, e, n);
        ReachSnoc(E, start, e);
        ReachTrans(E, e.snk, n, x);
        assert e in F;
        ReachSnoc(F, start, e);
      }
    }
    ReachInduction(E, start, n, P);
    ReachRefl(E, n);
  }

  lemma ToExit(g: Net, start: nat, exits: set<nat>, n: nat, x: nat)
    requires WellFormed(g) && n in g.nodes && Reach(g.edges, start, n) && x in exits && Reach(g.edges, n, x)
    ensures Reach(Pruned(g, start, exits).edges, n, x)
  {
    var E, F := g.edges, Pruned(g, start, exits).edges;
    ReachRefl(F, n);
    ReachRefl(E, n);
    var P := (m: nat) => Reach(E, m, x) ==> m in g.nodes && OnPath(E, start, exits, m) && Reach(F, n, m);
    forall e | e in E && P(e.src) ensures P(e.snk) {
      if Reach(E, e.snk, x) {
        ReachCons(E, e, x);
        ReachSnoc(E, start, e);
        assert OnPath(E, start, exits, e.snk);
        assert e in F;
        ReachSnoc(F, n, e);
      }
    }
    ReachInduction(E, n, x, P);
    ReachRefl(E, x);
  }

  /** Pruning again changes nothing. */
  lemma PruneTwice(g: Net, start: nat, exits: set<nat>)
    requires WellFormed(g)
    ensures Pruned(Pruned(g, start, exits), start, exits) == Pruned(g, start, exits)
  {
    var h := Pruned(g, start, exits);
    forall n | n in h.nodes ensures n in PathNodes(h, start, exits) {
      KeptStaysOnPath(g, start, exits, n);
    }
    assert PathNodes(h, start, exits) == h.nodes;
    assert Pruned(h, start, exits).edges == h.edges;
  }

  // ----- the two walks -----

  ghost predicate FromAny(E: set<Edge>, from: set<nat>, m: nat) {
    exists a :: a in from && Reach(E, a, m)
  }

  /** A walk so far: what was covered is reached, and what covered nodes lead to is covered, unless
      the node is still queued. */
  ghost predicate Walked(E: set<Edge>, from: set<nat>, covered: set<nat>, Q: seq<nat>) {
    && from <= covered && (forall m {:trigger m in Q} :: m in Q ==> m in covered)
    && (forall m {:trigger FromAny(E, from, m)} :: m in covered ==> FromAny(E, from, m))
    && (forall e {:trigger e in E} :: e in E && e.src in covered && e.src !in Q ==> e.snk in covered)
  }

  function Flip(e: Edge): Edge {
    Edge(e.snk, e.src)
  }

  function FlipAll(E: set<Edge>): set<Edge> {
    set e | e in E :: Flip(e)
  }

  lemma FlipReach(E: set<Edge>, a: nat, b: nat)
    requires Reach(FlipAll(E), a, b)
    ensures Reach(E, b, a)
  {
    ReachRefl(E, a);
    forall f | f in FlipAll(E) && Reach(E, f.src, a) ensures Reach(E, f.snk, a) {
      var e :| e in E && f == Flip(e);
      ReachCons(E, e, a);
    }
    ReachInduction(FlipAll(E), a, b, (x: nat) => Reach(E, x, a));
  }

  lemma FlipTwice(E: set<Edge>)
    ensures FlipAll(FlipAll(E)) == E
  {
    forall e | e in E ensures e in FlipAll(FlipAll(E)) {
      assert Flip(e) in FlipAll(E) && e == Flip(Flip(e));
    }
  }

  /** The edges at the front of the queue. */
  method WalkFront(ghost E: set<Edge>, ghost from: set<nat>, ahead: set<Edge>, covered0: set<nat>, Q0: seq<nat>)
    returns (covered: set<nat>, Q: seq<nat>)
    requires |Q0| > 0 && Walked(E, from, covered0, Q0) && ahead == OutEdges(E, Q0[0])
    ensures |Q| > 0 && covered0 <= covered <= covered0 + (set e | e in ahead :: e.snk)
    ensures Walked(E, from, covered, Q[1..]) && (covered == covered0 ==> Q == Q0)
  {
    covered, Q := covered0, Q0;
    var done: set<Edge> := {};
    while done < ahead
      invariant done <= ahead && |Q| > 0 && Q[0] == Q0[0]
      invariant covered0 <= covered <= covered0 + (set e | e in ahead :: e.snk)
      invariant Walked(E, from, covered, Q) && (covered == covered0 ==> Q == Q0)
      invariant forall e {:trigger e in done} :: e in done ==> e.snk in covered
      decreases ahead - done
    {
      var succ :| succ in ahead && succ !in done;
      if succ.snk !in covered {
        WalkStep(E, from, covered, Q, succ);
        Q, covered := Q + [succ.snk], covered + {succ.snk};
      }
      done := done + {succ};
    }
    assert done == OutEdges(E, Q[0]);
    WalkPop(E, from, covered, Q);
  }

  lemma WalkStep(E: set<Edge>, from: set<nat>, covered: set<nat>, Q: seq<nat>, e: Edge)
    requires |Q| > 0 && Walked(E, from, covered, Q) && e in E && e.src == Q[0]
    ensures Walked(E, from, covered + {e.snk}, Q + [e.snk])
  {
    assert Q[0] in Q && FromAny(E, from, Q[0]);
    var a :| a in from && Reach(E, a, Q[0]);
    ReachSnoc(E, a, e);
    assert FromAny(E, from, e.snk);
    assert forall m :: m in Q + [e.snk] <==> m in Q || m == e.snk;
  }

  lemma WalkPop(E: set<Edge>, from: set<nat>, covered: set<nat>, Q: seq<nat>)
    requires |Q| > 0 && Walked(E, from, covered, Q)
    requires forall e {:trigger e in OutEdges(E, Q[0])} :: e in OutEdges(E, Q[0]) ==> e.snk in covered
    ensures Walked(E, from, covered, Q[1..])
  {
    assert forall m :: m in Q <==> m == Q[0] || m in Q[1..];
    forall e | e in E && e.src in covered && e.src !in Q[1..] ensures e.snk in covered {
      if e.src == Q[0] {
        assert e in OutEdges(E, Q[0]);
      }
    }
  }

  lemma WalkedAll(E: set<Edge>, from: set<nat>, covered: set<nat>)
    requires Walked(E, from, covered, [])
    ensures forall m :: m in covered <==> FromAny(E, from, m)
  {
    forall m | FromAny(E, from, m) ensures m in covered {
      var a :| a in from && Reach(E, a, m);
      ReachInduction(E, a, m, (x: nat) => x in covered);
    }
  }

  /** Forward from the start, along the edges of the graph. */
  method WalkForward(graph: ControlGraph, start: nat) returns (covered: set<nat>)
    requires Held(graph.View()) && start in graph.succs
    ensures forall n :: n in covered <==> Reach(graph.edgeSet, start, n)
  {
    ghost var E := graph.edgeSet;
    covered := {start};
    var Q := [start];
    ReachRefl(E, start);
    assert FromAny(E, {start}, start);
    while Q != []
      invariant covered <= graph.nodeSet + {start} && Walked(E, {start}, covered, Q)
      decreases graph.nodeSet + {start} - covered, |Q|
    {
      covered, Q := ForwardTurn(graph, start, covered, Q);
    }
    WalkedOn(E, start, covered);
  }

  lemma WalkedOn(E: set<Edge>, start: nat, covered: set<nat>)
    requires Walked(E, {start}, covered, [])
    ensures forall n :: n in covered <==> Reach(E, start, n)
  {
    WalkedAll(E, {start}, covered);
    forall n ensures n in covered <==> Reach(E, start, n) {
      assert start in {start};
    }
  }

  /** One turn of the forward walk. */
  method ForwardTurn(graph: ControlGraph, start: nat, covered0: set<nat>, Q0: seq<nat>)
    returns (covered: set<nat>, Q: seq<nat>)
    requires Held(graph.View()) && start in graph.succs && |Q0| > 0
    requires covered0 <= graph.nodeSet + {start} && Walked(graph.edgeSet, {start}, covered0, Q0)
    ensures covered <= graph.nodeSet + {start} && Walked(graph.edgeSet, {start}, covered, Q)
    ensures covered0 < covered || (covered == covered0 && |Q| < |Q0|)
  {
    assert Q0[0] in Q0;
    var succs := set e | e in graph.succs[Q0[0]] && e in graph.edgeSet;
    AheadEdges(graph.View(), Q0[0]);
    covered, Q := WalkFront(graph.edgeSet, {start}, succs, covered0, Q0);
    Q := Q[1..];
  }

  lemma AheadEdges(g: GraphState, n: nat)
    requires Held(g) && n in g.succs
    ensures (set e | e in g.succs[n] && e in g.edges) == OutEdges(g.edges, n)
    ensures forall e {:trigger e in OutEdges(g.edges, n)} :: e in OutEdges(g.edges, n) ==> e.snk in g.nodes
  {
  }

  lemma WalkAgain(E: set<Edge>, from: set<nat>, covered: set<nat>, exit: nat)
    requires Walked(E, from, covered, [])
    ensures Walked(E, from + {exit}, covered + {exit}, [exit])
  {
    ReachRefl(E, exit);
    forall m | m in covered + {exit} ensures FromAny(E, from + {exit}, m) {
      if m != exit {
        assert FromAny(E, from, m);
        var a :| a in from && Reach(E, a, m);
        assert a in from + {exit};
      } else {
        assert exit in from + {exit};
      }
    }
  }

  /** Backward from one exit. */
  method WalkBackFrom(graph: ControlGraph, exits: set<nat>, exit: nat, covered0: set<nat>, ghost from: set<nat>)
    returns (covered: set<nat>)
    requires Held(graph.View()) && exit in exits && exits <= graph.preds.Keys && covered0 <= graph.nodeSet + exits
    requires Walked(FlipAll(graph.edgeSet), from, covered0, [])
    ensures covered <= graph.nodeSet + exits && Walked(FlipAll(graph.edgeSet), from + {exit}, covered, [])
  {
    ghost var E := FlipAll(graph.edgeSet);
    covered := covered0 + {exit};
    var Q := [exit];
    WalkAgain(E, from, covered0, exit);
    while Q != []
      invariant covered <= graph.nodeSet + exits && Walked(E, from + {exit}, covered, Q)
      decreases graph.nodeSet + exits - covered, |Q|
    {
      assert Q[0] in Q;
      ghost var before := covered;
      var preds := set e | e in graph.preds[Q[0]] && e in graph.edgeSet :: Flip(e);
      BackEdges(graph.View(), Q[0]);
      covered, Q := WalkFront(E, from + {exit}, preds, covered, Q);
      if covered != before {
        assert graph.nodeSet + exits - covered < graph.nodeSet + exits - before;
      }
      Q := Q[1..];
    }
  }

  lemma BackEdges(g: GraphState, n: nat)
    requires Held(g) && n in g.preds
    ensures (set e | e in g.preds[n] && e in g.edges :: Flip(e)) == OutEdges(FlipAll(g.edges), n)
    ensures forall f {:trigger f in OutEdges(FlipAll(g.edges), n)} :: f in OutEdges(FlipAll(g.edges), n) ==>
      f.snk in g.nodes
  {
    forall f | f in OutEdges(FlipAll(g.edges), n)
      ensures f in (set e | e in g.preds[n] && e in g.edges :: Flip(e)) && f.snk in g.nodes
    {
      var e :| e in g.edges && f == Flip(e);
      assert e in g.preds[n];
    }
  }

  /** Backward from every exit. */
  method WalkBackward(graph: ControlGraph, exits: set<nat>) returns (covered: set<nat>)
    requires Held(graph.View()) && exits <= graph.preds.Keys
    ensures forall n :: n in covered <==> LeadsTo(graph.edgeSet, exits, n)
  {
    ghost var E := FlipAll(graph.edgeSet);
    covered := {};
    var done: set<nat> := {};
    while done < exits
      invariant done <= exits && covered <= graph.nodeSet + exits && Walked(E, done, covered, [])
      decreases exits - done
    {
      var ex :| ex in exits && ex !in done;
      covered := WalkBackFrom(graph, exits, ex, covered, done);
      done := done + {ex};
    }
    assert done == exits;
    WalkedAll(E, exits, covered);
    forall n ensures n in covered <==> LeadsTo(graph.edgeSet, exits, n) {
      CoveredBack(graph.edgeSet, exits, covered, n);
    }
  }

  lemma CoveredBack(E: set<Edge>, exits: set<nat>, covered: set<nat>, n: nat)
    requires n in covered <==> FromAny(FlipAll(E), exits, n)
    ensures n in covered <==> LeadsTo(E, exits, n)
  {
    FlipAny(E, exits, n);
  }

  lemma FlipAny(E: set<Edge>, exits: set<nat>, n: nat)
    ensures FromAny(FlipAll(E), exits, n) <==> LeadsTo(E, exits, n)
  {
    if x :| x in exits && Reach(FlipAll(E), x, n) {
      FlipReach(E, x, n);
    }
    if x :| x in exits && Reach(E, n, x) {
      FlipTwice(E);
      FlipReach(FlipAll(E), n, x);
    }
  }

  // ----- the pruning -----

  /** Removing nodes with all edges they hold. */
  method RemoveNodes(graph: ControlGraph, toRemove: set<nat>)
    requires Held(graph.View()) && toRemove <= graph.nodeSet
    modifies graph
    ensures graph.nodeSet == old(graph.nodeSet) - toRemove
    ensures graph.edgeSet == set e | e in old(graph.edgeSet) && e.src !in toRemove && e.snk !in toRemove
    ensures graph.succs == old(graph.succs) && graph.preds == old(graph.preds)
  {
    ghost var g := graph.View();
    var done: set<nat> := {};
    while done < toRemove
      invariant done <= toRemove
      invariant graph.nodeSet == g.nodes - done
      invariant graph.edgeSet == set e | e in g.edges && e.src !in done && e.snk !in done
      invariant graph.succs == g.succs && graph.preds == g.preds
      decreases toRemove - done
    {
      var node :| node in toRemove && node !in done;
      graph.nodeSet := graph.nodeSet - {node};
      graph.edgeSet := graph.edgeSet - graph.preds[node] - graph.succs[node];
      done := done + {node};
    }
    assert done == toRemove;
  }

  /** removeUnreachableNodes: reports a node without successors, otherwise prunes. */
  method RemoveUnreachableNodes(graph: ControlGraph, start: nat, exits: set<nat>) returns (threw: bool)
    requires Held(graph.View()) && start in graph.succs && exits <= graph.preds.Keys
    modifies graph
    ensures threw <==> exists n :: n in old(graph.nodeSet) && old(graph.succs)[n] == {}
    ensures threw ==> graph.View() == old(graph.View())
    ensures !threw ==>
      Net(graph.nodeSet, graph.edgeSet) == Pruned(Net(old(graph.nodeSet), old(graph.edgeSet)), start, exits)
    ensures graph.succs == old(graph.succs) && graph.preds == old(graph.preds)
  {
    if exists n :: n in graph.nodeSet && graph.succs[n] == {} {
      return true;
    }
    ghost var g := Net(graph.nodeSet, graph.edgeSet);
    var forward := WalkForward(graph, start);
    var backward := WalkBackward(graph, exits);
    var toRemove := (set n | n in graph.nodeSet && n !in forward) + (set n | n in graph.nodeSet && n !in backward);
    ghost var K := PathNodes(g, start, exits);
    assert g.nodes - toRemove == K;
    RemoveNodes(graph, toRemove);
    forall e | e in g.edges ensures e.src !in toRemove && e.snk !in toRemove <==> e.src in K && e.snk in K {
      assert e.src in g.nodes && e.snk in g.nodes;
    }
    threw := false;
  }
}
