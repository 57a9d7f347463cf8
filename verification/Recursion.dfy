/** Recursion in the call graph: direct and indirect recursion of a function, the functions of a
    recursion, and the functions embedded in a function. */
module Recursion {
  import opened Graphs
  import opened Sets
  import opened CycleSearch
  import opened Regions
  import opened Deque
  import opened ShortestPath

  /** A call graph: its containers, the links of its nodes, and how searches over it sort. */
  datatype Calls = Calls(net: Net, links: Linked, sort: Sorting)

  ghost predicate IsCallGraph(g: Calls) {
    && WellFormed(g.net) && Sorts(g.sort)
    && g.links.succs.Keys == g.net.nodes && g.links.preds.Keys == g.net.nodes
    && (forall n :: n in g.net.nodes ==> g.links.succs[n] == OutEdges(g.net.edges, n))
    && (forall n :: n in g.net.nodes ==> g.links.preds[n] == InEdges(g.net.edges, n))
  }

  /** All call edges have weight one, so they are free. */
  function Free(E: set<Edge>): Costs {
    map e | e in E :: 0.0
  }

  lemma FreeWalk(E: set<Edge>, p: seq<nat>)
    requires forall i :: 0 <= i < |p| - 1 ==> Edge(p[i], p[i + 1]) in E
    ensures WalkCost(Free(E), p) == 0.0
  {
    if |p| >= 2 {
      var q := p[..|p| - 1];
      assert forall i :: 0 <= i < |q| - 1 ==> Edge(q[i], q[i + 1]) == Edge(p[i], p[i + 1]);
      FreeWalk(E, q);
      assert Edge(p[|p| - 2], p[|p| - 2 + 1]) in E;
    }
  }

  /** A closed walk passes through the function and another one. */
  ghost predicate Indirect(E: set<Edge>, n: nat) {
    exists m :: m != n && Reach(E, n, m) && Reach(E, m, n)
  }

  // ----- the cycle of a function -----

  /** Whatever the sort: the nodes of a cheapest cycle through n among the edges F, which the graph's links contain. */
  method CycleOf(g: Calls, F: set<Edge>, n: nat) returns (cycle: set<nat>)
    requires IsCallGraph(g) && F <= g.net.edges && n in g.net.nodes
    ensures cycle != {} <==> ReachPlus(F, n, n)
    ensures |cycle| == 1 <==> Edge(n, n) in F
    ensures |cycle| > 1 ==> Indirect(F, n)
  {
    var graph := Net(g.net.nodes, F);
    assert Visible(graph, g.links.succs) == F;
    ghost var path, late;
    cycle, path, late := Dijkstras(graph, g.links.succs, Free(F), n, n, g.sort);
    assert AllFree(F, Free(F));
    assert Inflated(Free(F), n, late) == Free(F);
    if Edge(n, n) in F {
      SelfIsFree(F, n);
    }
    if cycle != {} {
      StemFacts(F, n, path);
    }
  }

  lemma SelfIsFree(F: set<Edge>, n: nat)
    requires Edge(n, n) in F
    ensures SelfIsCheapest(F, Free(F), n)
  {
    forall q | Walk(F, n, n, q) && |q| >= 2 ensures Free(F)[Edge(n, n)] <= WalkCost(Free(F), q) {
      FreeWalk(F, q);
    }
  }

  lemma StemFacts(F: set<Edge>, n: nat, path: seq<nat>)
    requires Walk(F, n, n, path) && |path| >= 2
    ensures n in Stem(path)
    ensures |Stem(path)| == 1 ==> Edge(n, n) in F
    ensures |Stem(path)| > 1 ==> Indirect(F, n)
  {
    assert path[0] in Stem(path);
    if |Stem(path)| == 1 {
      assert Edge(path[0], path[0 + 1]) in F;
      if |path| > 2 {
        assert path[1] in Stem(path);
        AtMostOne(Stem(path), n, path[1]);
      }
    } else {
      var rest := Stem(path) - {n};
      assert Stem(path) == rest + {n} && |Stem(path)| == |rest| + 1;
      var m :| m in rest;
      var i :| 0 <= i < |path| - 1 && path[i] == m;
      assert Walk(F, n, m, path[..i + 1]);
      assert Walk(F, m, n, path[i..]);
      assert m != n && Reach(F, n, m) && Reach(F, m, n);
    }
  }

  // ----- self-edges do not matter for indirect recursion -----

  /** The edges without some of the self-edges. */
  ghost predicate SelvesRemoved(E: set<Edge>, F: set<Edge>) {
    F <= E && forall e {:trigger e in E} :: e in E && e.src != e.snk ==> e in F
  }

  lemma SameReach(E: set<Edge>, F: set<Edge>, a: nat, b: nat)
    requires SelvesRemoved(E, F)
    ensures Reach(E, a, b) <==> Reach(F, a, b)
  {
    if Reach(E, a, b) {
      ReachRefl(F, a);
      forall e | e in E && Reach(F, a, e.src) ensures Reach(F, a, e.snk) {
        if e.src != e.snk {
          ReachSnoc(F, a, e);
        }
      }
      ReachInduction(E, a, b, (x: nat) => Reach(F, a, x));
    }
    if Reach(F, a, b) {
      ReachMono(F, E, a, b);
    }
  }

  lemma SameIndirect(E: set<Edge>, F: set<Edge>, n: nat)
    requires SelvesRemoved(E, F)
    ensures Indirect(E, n) <==> Indirect(F, n)
  {
    if m :| m != n && Reach(E, n, m) && Reach(E, m, n) {
      SameReach(E, F, n, m);
      SameReach(E, F, m, n);
      assert Reach(F, n, m) && Reach(F, m, n);
    }
    if m :| m != n && Reach(F, n, m) && Reach(F, m, n) {
      SameReach(E, F, n, m);
      SameReach(E, F, m, n);
      assert Reach(E, n, m) && Reach(E, m, n);
    }
  }

  lemma IndirectIsCycle(E: set<Edge>, n: nat)
    requires Indirect(E, n)
    ensures ReachPlus(E, n, n)
  {
    var m :| m != n && Reach(E, n, m) && Reach(E, m, n);
    ReachIsPlus(E, n, m);
    PlusTrans(E, n, m, n);
  }

  // ----- the two tests -----

  /** hasDirectRecursion: the cycle found has one node. */
  method HasDirectRecursion(g: Calls, n: nat) returns (r: bool)
    requires IsCallGraph(g) && n in g.net.nodes
    ensures r <==> Edge(n, n) in g.net.edges
  {
    var cycle := CycleOf(g, g.net.edges, n);
    r := |cycle| == 1;
  }

  /** hasIndirectRecursion: a longer cycle, if need be looked for again without the self-edge. */
  method HasIndirectRecursion(g: Calls, n: nat) returns (r: bool)
    requires IsCallGraph(g) && n in g.net.nodes
    ensures r <==> Indirect(g.net.edges, n)
  {
    var without;
    r, without := TestIndirect(g, g.net.edges, n);
  }

  /** The test, on the edges without some of the self-edges; also the edges it looked at last. */
  method TestIndirect(g: Calls, F: set<Edge>, n: nat) returns (r: bool, F': set<Edge>)
    requires IsCallGraph(g) && n in g.net.nodes && SelvesRemoved(g.net.edges, F)
    ensures r <==> Indirect(g.net.edges, n)
    ensures SelvesRemoved(g.net.edges, F')
  {
    SameIndirect(g.net.edges, F, n);
    F' := F;
    var cycle := CycleOf(g, F, n);
    if |cycle| > 1 {
      r := true;
    } else if |cycle| == 1 {
      F' := F - {Edge(n, n)};
      SameIndirect(g.net.edges, F', n);
      var cycle2 := CycleOf(g, F', n);
      r := |cycle2| > 1;
      if Indirect(F', n) {
        IndirectIsCycle(F', n);
      }
    } else {
      r := false;
      if Indirect(F, n) {
        IndirectIsCycle(F, n);
      }
    }
  }

  // ----- the same test as a depth-first search with an explicit stack -----

  /** What the search knows: everything but the stack is finished, and no finished function other
      than the start calls the start. */
  ghost predicate Explored(E: set<Edge>, node: nat, visited: set<nat>, Q: seq<nat>) {
    && (forall m {:trigger m in Q} :: m in Q ==> Reach(E, node, m))
    && (forall m {:trigger m in visited} :: m in visited ==> Reach(E, node, m))
    && (forall i :: 1 <= i < |Q| ==> Q[i] in visited)
    && (forall e {:trigger e in E} :: e in E && e.src in visited && e.src !in Q ==>
          e.snk in visited && !(e.snk == node && e.src != node))
  }

  /** One visit of the front of the stack. */
  method ScanCallees(g: Calls, node: nat, visited: set<nat>, Q: seq<nat>) returns (found: bool, next: Option<nat>)
    requires IsCallGraph(g) && |Q| > 0 && Q[0] in g.net.nodes && Q[|Q| - 1] == node
    ensures found ==> Edge(Q[0], node) in g.net.edges && Q[0] != node
    ensures !found && next.Some? ==> Edge(Q[0], next.value) in g.net.edges && next.value !in visited
    ensures !found && next.None? ==>
      forall y :: Edge(Q[0], y) in g.net.edges ==> y in visited && !(y == node && Q[0] != node)
  {
    var callees := g.links.succs[Q[0]];
    var done: set<Edge> := {};
    while done < callees
      invariant done <= callees
      invariant forall y :: Edge(Q[0], y) in done ==> y in visited && !(y == node && Q[0] != node)
      decreases callees - done
    {
      var f :| f in callees && f !in done;
      assert f == Edge(Q[0], f.snk);
      if f.snk in Q {
        if f.snk != Q[0] {
          if f.snk == node {
            return true, None;
          }
        }
      }
      if f.snk !in visited {
        return false, Some(f.snk);
      }
      done := done + {f};
    }
    assert done == callees;
    return false, None;
  }

  /** The second hasIndirectRecursion. */
  method SearchIndirectRecursion(g: Calls, node: nat) returns (r: bool)
    requires IsCallGraph(g) && node in g.net.nodes
    ensures r <==> Indirect(g.net.edges, node)
  {
    ghost var E := g.net.edges;
    var visited: set<nat> := {};
    var Q := [node];
    ReachRefl(E, node);
    while Q != []
      invariant Explored(E, node, visited, Q)
      invariant visited <= g.net.nodes && forall m :: m in Q ==> m in g.net.nodes
      invariant Q != [] ==> Q[|Q| - 1] == node
      invariant Q == [] ==> node in visited
      invariant Q != [] && |Q| > 1 ==> node in visited
      decreases g.net.nodes - visited - (if Q == [] then {} else {Q[0]}), |Q|
    {
      ghost var before := visited;
      visited := visited + {Q[0]};
      var found, next := ScanCallees(g, node, visited, Q);
      if found {
        assert Q[0] in Q;
        ReachStep(E, Edge(Q[0], node));
        return true;
      }
      if next.Some? {
        ReachSnoc(E, node, Edge(Q[0], next.value));
        Q := [next.value] + Q;
      } else {
        PopExplored(E, node, before, visited, Q);
        Q := Q[1..];
      }
    }
    NothingFound(E, node, visited);
    return false;
  }

  lemma PopExplored(E: set<Edge>, node: nat, before: set<nat>, visited: set<nat>, Q: seq<nat>)
    requires |Q| > 0 && visited == before + {Q[0]} && Explored(E, node, before, Q)
    requires forall y :: Edge(Q[0], y) in E ==> y in visited && !(y == node && Q[0] != node)
    ensures Explored(E, node, visited, Q[1..])
  {
    assert Q == [Q[0]] + Q[1..];
    assert Q[0] in Q;
    forall e | e in E && e.src in visited && e.src !in Q[1..]
      ensures e.snk in visited && !(e.snk == node && e.src != node)
    {
      if e.src == Q[0] {
        assert e == Edge(Q[0], e.snk);
      }
    }
  }

  lemma NothingFound(E: set<Edge>, node: nat, visited: set<nat>)
    requires Explored(E, node, visited, []) && node in visited
    ensures !Indirect(E, node)
  {
    if m :| m != node && Reach(E, node, m) && Reach(E, m, node) {
      ReachIsPlus(E, m, node);
      var e := LastChange(E, m, node);
      ReachTrans(E, node, m, e.src);
      ReachInduction(E, node, e.src, (x: nat) => x in visited);
    }
  }

  /** On a journey to another node there is a last step from elsewhere. */
  lemma LastChange(E: set<Edge>, a: nat, b: nat) returns (e: Edge)
    requires a != b && Reach(E, a, b)
    ensures e in E && e.snk == b && e.src != b && Reach(E, a, e.src)
  {
    if forall e {:trigger e in E} :: e in E && e.snk == b && e.src != b ==> !Reach(E, a, e.src) {
      ReachRefl(E, a);
      forall e | e in E && Reach(E, a, e.src) && e.src != b ensures Reach(E, a, e.snk) && e.snk != b {
        ReachSnoc(E, a, e);
      }
      ReachInduction(E, a, b, (x: nat) => Reach(E, a, x) && x != b);
    }
    e :| e in E && e.snk == b && e.src != b && Reach(E, a, e.src);
  }
}
