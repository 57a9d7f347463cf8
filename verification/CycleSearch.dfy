/** The explicit-stack depth-first search that decides whether a graph has a cycle. */
module CycleSearch {
  import opened Graphs
  import opened Sets

  type Links = map<nat, set<Edge>>

  /** The links of the graph's nodes: every listed edge leaves the node that lists it. */
  predicate LinksFor(nodes: set<nat>, succs: Links) {
    forall n :: n in nodes ==> n in succs && forall e {:trigger e in succs[n]} :: e in succs[n] ==> e.src == n
  }

  /** The edges the search looks at: linked from their source, owned by the graph, and
      ending inside the graph. */
  function Visible(graph: Net, succs: Links): set<Edge>
    requires LinksFor(graph.nodes, succs)
  {
    set e | e in graph.edges && e.src in graph.nodes && e.snk in graph.nodes && e in succs[e.src]
  }

  /** The deque, front first, is the current depth-first path read backwards. */
  ghost predicate IsStack(E: set<Edge>, Q: seq<nat>) {
    && (forall i :: 0 <= i < |Q| - 1 ==> Edge(Q[i + 1], Q[i]) in E)
    && (forall i, j :: 0 <= i < j < |Q| ==> Q[i] != Q[j])
  }

  /** Nodes in the order they left the deque: successors always left before. */
  ghost predicate Finished(E: set<Edge>, done: seq<nat>) {
    forall i, y :: 0 <= i < |done| && Edge(done[i], y) in E ==> y in done[..i]
  }

  lemma StackReaches(E: set<Edge>, Q: seq<nat>, k: nat)
    requires IsStack(E, Q) && k < |Q|
    ensures Reach(E, Q[k], Q[0])
  {
    if k == 0 {
      ReachRefl(E, Q[0]);
    } else {
      StackReaches(E, Q, k - 1);
      assert Edge(Q[k - 1 + 1], Q[k - 1]) in E;
      ReachCons(E, Edge(Q[k], Q[k - 1]), Q[0]);
    }
  }

  function Position(done: seq<nat>, x: nat): (i: nat)
    ensures i <= |done|
    ensures i < |done| ==> done[i] == x
    ensures forall j :: 0 <= j < i ==> done[j] != x
  {
    if |done| == 0 || done[0] == x then 0
    else 1 + Position(done[1..], x)
  }

  lemma FinishedIsAcyclic(E: set<Edge>, done: seq<nat>)
    requires Finished(E, done)
    requires forall e :: e in E ==> e.src in done
    ensures !Cyclic(E)
  {
    forall e | e in E ensures Position(done, e.snk) < Position(done, e.src) {
      var i := Position(done, e.src);
      assert Edge(done[i], e.snk) in E;
      var j :| 0 <= j < i && done[j] == e.snk;
    }
    RankedIsAcyclic(E, (x: nat) => -(Position(done, x) as int));
  }

  /** One visit of the front node: look at its successors, in any order, until one is on the
      deque (a back edge) or one is unvisited (to be pushed). */
  method ScanFront(graph: Net, succs: Links, Q: seq<nat>, visited: set<nat>)
    returns (backEdge: bool, next: Option<nat>)
    requires LinksFor(graph.nodes, succs)
    requires |Q| > 0 && Q[0] in graph.nodes && Q[0] in visited
    ensures backEdge ==> exists y :: Edge(Q[0], y) in Visible(graph, succs) && y in Q
    ensures !backEdge && next.Some? ==>
              && Edge(Q[0], next.value) in Visible(graph, succs)
              && next.value !in visited && next.value !in Q
    ensures !backEdge && next.None? ==>
              forall y :: Edge(Q[0], y) in Visible(graph, succs) ==> y in visited && y !in Q
  {
    ghost var E := Visible(graph, succs);
    var todo := succs[Q[0]];
    while todo != {}
      invariant todo <= succs[Q[0]]
      invariant forall y :: Edge(Q[0], y) in E && Edge(Q[0], y) !in todo ==> y in visited && y !in Q
      decreases todo
    {
      var n :| n in todo;
      todo := todo - {n};
      if n in graph.edges && n.snk in graph.nodes {
        assert n == Edge(Q[0], n.snk) && n in E;
        if n.snk in Q {
          return true, None;
        }
        if n.snk !in visited {
          return false, Some(n.snk);
        }
      }
    }
    return false, None;
  }

  /** What the search knows between two visits. */
  ghost predicate SearchState(graph: Net, E: set<Edge>, visited: set<nat>, Q: seq<nat>, done: seq<nat>) {
    && visited <= graph.nodes
    && (forall i :: 0 <= i < |Q| ==> Q[i] in graph.nodes && Q[i] !in done)
    && (forall i :: 1 <= i < |Q| ==> Q[i] in visited)
    && IsStack(E, Q)
    && (forall x :: x in done ==> x in visited)
    && (forall x :: x in visited ==> x in done || x in Q)
    && Finished(E, done)
  }

  lemma PushKeeps(graph: Net, E: set<Edge>, visited: set<nat>, Q: seq<nat>, done: seq<nat>, y: nat)
    requires SearchState(graph, E, visited, Q, done) && |Q| > 0 && Q[0] in visited
    requires Edge(Q[0], y) in E && y in graph.nodes && y !in visited && y !in Q
    ensures SearchState(graph, E, visited, [y] + Q, done)
  {
    var R := [y] + Q;
    forall i | 0 <= i < |R| - 1 ensures Edge(R[i + 1], R[i]) in E {
      if i > 0 {
        assert R[i] == Q[i - 1] && R[i + 1] == Q[i - 1 + 1];
      }
    }
  }

  lemma PopKeeps(graph: Net, E: set<Edge>, visited: set<nat>, Q: seq<nat>, done: seq<nat>)
    requires SearchState(graph, E, visited, Q, done) && |Q| > 0 && Q[0] in visited
    requires forall y :: Edge(Q[0], y) in E ==> y in visited && y !in Q
    ensures SearchState(graph, E, visited, Q[1..], done + [Q[0]])
  {
    var R, d := Q[1..], done + [Q[0]];
    forall i, y | 0 <= i < |d| && Edge(d[i], y) in E ensures y in d[..i] {
      if i < |done| {
        assert d[..i] == done[..i];
      } else {
        assert d[..i] == done;
      }
    }
    forall i | 0 <= i < |R| - 1 ensures Edge(R[i + 1], R[i]) in E {
      assert R[i] == Q[i + 1] && R[i + 1] == Q[i + 1 + 1];
    }
    forall x | x in visited ensures x in d || x in R {
      if x !in done {
        var k :| 0 <= k < |Q| && Q[k] == x;
        if k > 0 {
          assert R[k - 1] == x;
        }
      }
    }
  }

  /** The inner loop: one depth-first search from an unvisited node. */
  method SearchFrom(graph: Net, succs: Links, node: nat, start: set<nat>, ghost left: seq<nat>)
    returns (found: bool, visited: set<nat>, ghost done: seq<nat>)
    requires LinksFor(graph.nodes, succs)
    requires node in graph.nodes && node !in start
    requires SearchState(graph, Visible(graph, succs), start, [], left)
    ensures found ==> Cyclic(Visible(graph, succs))
    ensures !found ==> SearchState(graph, Visible(graph, succs), visited, [], done)
    ensures !found ==> start <= visited && node in visited
  {
    ghost var E := Visible(graph, succs);
    var Q := [node];
    visited, done := start, left;
    while Q != []
      invariant SearchState(graph, E, visited, Q, done)
      invariant start <= visited
      invariant Q == [] ==> node in visited
      invariant Q != [] ==> Q[|Q| - 1] == node
      decreases graph.nodes - visited - (set x | x in Q), |Q|
    {
      ghost var pending := graph.nodes - visited - (set x | x in Q);
      visited := visited + {Q[0]};
      var backEdge, next := ScanFront(graph, succs, Q, visited);
      if backEdge {
        BackEdgeIsCycle(E, Q);
        return true, visited, done;
      }
      if next.Some? {
        PushKeeps(graph, E, visited, Q, done, next.value);
        assert next.value in pending;
        Q := [next.value] + Q;
      } else {
        PopKeeps(graph, E, visited, Q, done);
        done := done + [Q[0]];
        Q := Q[1..];
      }
    }
    found := false;
  }

  lemma BackEdgeIsCycle(E: set<Edge>, Q: seq<nat>)
    requires IsStack(E, Q) && |Q| > 0
    requires exists y :: Edge(Q[0], y) in E && y in Q
    ensures Cyclic(E)
  {
    var y :| Edge(Q[0], y) in E && y in Q;
    var k :| 0 <= k < |Q| && Q[k] == y;
    StackReaches(E, Q, k);
    ReachSnoc(E, y, Edge(Q[0], y));
  }

  /** Is there a cycle? While some node is unvisited, start a depth-first search there. */
  method FindCycles(graph: Net, succs: Links) returns (found: bool)
    requires LinksFor(graph.nodes, succs)
    ensures found <==> Cyclic(Visible(graph, succs))
  {
    var visited: set<nat> := {};
    ghost var done: seq<nat> := [];
    while |visited| < |graph.nodes|
      invariant SearchState(graph, Visible(graph, succs), visited, [], done)
      decreases graph.nodes - visited
    {
      assert visited != graph.nodes;
      var node :| node in graph.nodes && node !in visited;
      found, visited, done := SearchFrom(graph, succs, node, visited, done);
      if found {
        return;
      }
    }
    SameSize(visited, graph.nodes);
    FinishedIsAcyclic(Visible(graph, succs), done);
    return false;
  }

  /** On a graph whose edges are all linked and end inside it, the answer is about exactly
      the graph's own edge set. */
  lemma VisibleIsAll(graph: Net, succs: Links)
    requires LinksFor(graph.nodes, succs) && WellFormed(graph)
    requires forall e :: e in graph.edges ==> e in succs[e.src]
    ensures Visible(graph, succs) == graph.edges
  {
  }
}
