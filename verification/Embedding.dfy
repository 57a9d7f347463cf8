/** The functions of a recursion and the functions embedded in a function: getIndirectRecursionCycle,
    getIndirectRecursionEntrances and FindEmbeddedFunctions. */
module Embedding {
  import opened Graphs
  import opened Sets
  import opened CycleSearch
  import opened Regions
  import opened Recursion

  // ----- the functions of a recursion -----

  /** Calls of other functions that are indirectly recursive. */
  ghost function IndirectCalls(E: set<Edge>): set<Edge> {
    set e | e in E && e.src != e.snk && Indirect(E, e.snk)
  }

  /** m can be reached from n, in one or more calls, through indirectly recursive functions only. */
  ghost predicate InRecursion(E: set<Edge>, n: nat, m: nat) {
    ReachPlus(IndirectCalls(E), n, m)
  }

  /** Breadth-first, so far. Everything found was reached, and what a found function calls is
      found, unless the function is still queued. */
  ghost predicate Growing(E: set<Edge>, n: nat, cycle: set<nat>, Q: seq<nat>) {
    && (forall m {:trigger m in cycle} :: m in cycle ==> InRecursion(E, n, m))
    && (forall m {:trigger m in Q} :: m in Q ==> m == n || m in cycle)
    && (forall e {:trigger e in E} ::
          e in E && e.src != e.snk && Indirect(E, e.snk) && (e.src == n || e.src in cycle) && e.src !in Q ==>
          e.snk in cycle)
  }

  /** The children of the front of the queue. */
  method GrowCycle(g: Calls, n: nat, F0: set<Edge>, cycle0: set<nat>, Q0: seq<nat>)
    returns (F: set<Edge>, cycle: set<nat>, Q: seq<nat>)
    requires IsCallGraph(g) && SelvesRemoved(g.net.edges, F0) && cycle0 <= g.net.nodes
    requires |Q0| > 0 && Q0[0] in g.net.nodes && Growing(g.net.edges, n, cycle0, Q0)
    ensures |Q| > 0 && cycle0 <= cycle && (cycle == cycle0 ==> Q == Q0)
    ensures SelvesRemoved(g.net.edges, F) && cycle <= g.net.nodes && Growing(g.net.edges, n, cycle, Q[1..])
  {
    ghost var E := g.net.edges;
    F, cycle, Q := F0, cycle0, Q0;
    var front := Q0[0];
    var children, done := g.links.succs[front], {};
    while done < children
      invariant done <= children && SelvesRemoved(E, F) && cycle <= g.net.nodes && cycle0 <= cycle
      invariant |Q| > 0 && Q[0] == front && Growing(E, n, cycle, Q)
      invariant cycle == cycle0 ==> Q == Q0
      invariant forall e {:trigger e in done} :: e in done && e.src != e.snk && Indirect(E, e.snk) ==> e.snk in cycle
      decreases children - done
    {
      var child :| child in children && child !in done;
      if child.snk !in cycle {
        if child.snk != front {
          var r, F' := TestIndirect(g, F, child.snk);
          if r {
            F := F';
            FoundStep(E, n, cycle, Q, child);
            cycle, Q := cycle + {child.snk}, Q + [child.snk];
          }
        }
      }
      done := done + {child};
    }
    assert done == OutEdges(E, front);
    PopGrowing(E, n, cycle, Q);
  }

  lemma FoundStep(E: set<Edge>, n: nat, cycle: set<nat>, Q: seq<nat>, child: Edge)
    requires |Q| > 0 && Growing(E, n, cycle, Q) && child in E && child.src == Q[0] && child.snk != Q[0]
    requires Indirect(E, child.snk)
    ensures Growing(E, n, cycle + {child.snk}, Q + [child.snk])
  {
    var R := IndirectCalls(E);
    assert child in R && Q[0] in Q;
    if Q[0] == n {
      ReachRefl(R, n);
    } else {
      assert InRecursion(E, n, Q[0]);
      PlusIsReach(R, n, Q[0]);
    }
    ReachSnoc(R, n, child);
    assert forall m :: m in Q + [child.snk] <==> m in Q || m == child.snk;
  }

  lemma PopGrowing(E: set<Edge>, n: nat, cycle: set<nat>, Q: seq<nat>)
    requires |Q| > 0 && Growing(E, n, cycle, Q)
    requires forall e {:trigger e in OutEdges(E, Q[0])} ::
      e in OutEdges(E, Q[0]) && e.src != e.snk && Indirect(E, e.snk) ==> e.snk in cycle
    ensures Growing(E, n, cycle, Q[1..])
  {
    assert forall m :: m in Q <==> m == Q[0] || m in Q[1..];
    forall e | e in E && e.src != e.snk && Indirect(E, e.snk) && (e.src == n || e.src in cycle) && e.src !in Q[1..]
      ensures e.snk in cycle
    {
      if e.src == Q[0] {
        assert e in OutEdges(E, Q[0]);
      }
    }
  }

  /** getIndirectRecursionCycle: the functions of the recursion n leads into. */
  method IndirectRecursionCycle(g: Calls, n: nat) returns (cycle: set<nat>)
    requires IsCallGraph(g) && n in g.net.nodes
    ensures cycle <= g.net.nodes && forall m :: m in cycle <==> InRecursion(g.net.edges, n, m)
  {
    ghost var E := g.net.edges;
    cycle := {};
    var Q, graphCopy := [n], g.net.edges;
    while Q != []
      invariant cycle <= g.net.nodes && (forall m :: m in Q ==> m in g.net.nodes)
      invariant SelvesRemoved(E, graphCopy) && Growing(E, n, cycle, Q)
      decreases g.net.nodes - cycle, |Q|
    {
      ghost var before := cycle;
      graphCopy, cycle, Q := GrowCycle(g, n, graphCopy, cycle, Q);
      if cycle != before {
        assert g.net.nodes - cycle < g.net.nodes - before;
      }
      Q := Q[1..];
      assert forall m :: m in Q ==> m == n || m in cycle;
    }
    GrownAll(E, n, cycle);
  }

  lemma GrownAll(E: set<Edge>, n: nat, cycle: set<nat>)
    requires Growing(E, n, cycle, [])
    ensures forall m :: m in cycle <==> InRecursion(E, n, m)
  {
    var R := IndirectCalls(E);
    forall m | InRecursion(E, n, m) ensures m in cycle {
      var e :| e in R && e.src == n && Reach(R, e.snk, m);
      assert e in E;
      forall f | f in R && f.src in cycle ensures f.snk in cycle {
        assert f in E;
      }
      ReachInduction(R, e.snk, m, (x: nat) => x in cycle);
    }
  }

  /** getIndirectRecursionEntrances: the calls into the recursion from outside it. */
  method IndirectRecursionEntrances(g: Calls, n: nat) returns (entrances: set<Edge>)
    requires IsCallGraph(g) && n in g.net.nodes
    ensures forall e :: e in entrances <==>
      e in g.net.edges && InRecursion(g.net.edges, n, e.snk) && !InRecursion(g.net.edges, n, e.src)
  {
    var cycle := IndirectRecursionCycle(g, n);
    entrances := set node, pred | node in cycle && pred in g.links.preds[node] && pred.src !in cycle :: pred;
    forall e ensures e in entrances <==> e in g.net.edges && e.snk in cycle && e.src !in cycle {
      if e in g.net.edges && e.snk in cycle && e.src !in cycle {
        assert e in g.links.preds[e.snk];
      }
    }
  }

  /** A function in a recursion with another belongs to the recursion that one leads into. */
  lemma MutualIsInRecursion(E: set<Edge>, a: nat, b: nat)
    requires a != b && Reach(E, a, b) && Reach(E, b, a)
    ensures InRecursion(E, a, b) && InRecursion(E, b, a) && InRecursion(E, a, a)
  {
    LeadsIn(E, a, b);
    LeadsIn(E, b, a);
    PlusTrans(IndirectCalls(E), a, b, a) by {
      PlusIsReach(IndirectCalls(E), b, a);
    }
  }

  lemma LeadsIn(E: set<Edge>, a: nat, b: nat)
    requires a != b && Reach(E, a, b) && Reach(E, b, a)
    ensures InRecursion(E, a, b)
  {
    var R := IndirectCalls(E);
    ReachRefl(R, a);
    ReachRefl(E, a);
    var P := (x: nat) => Reach(E, x, b) ==> Reach(R, a, x);
    forall e | e in E && P(e.src) ensures P(e.snk) {
      if Reach(E, e.snk, b) {
        ReachCons(E, e, b);
        if e.src != e.snk {
          StepInside(E, a, b, e);
        }
      }
    }
    ReachInduction(E, a, b, P);
    ReachRefl(E, b);
    ReachIsPlus(R, a, b);
  }

  lemma StepInside(E: set<Edge>, a: nat, b: nat, e: Edge)
    requires Reach(E, b, a) && e in E && e.src != e.snk && Reach(E, e.snk, b) && Reach(IndirectCalls(E), a, e.src)
    ensures Reach(IndirectCalls(E), a, e.snk)
  {
    var R := IndirectCalls(E);
    ReachMono(R, E, a, e.src);
    ReachTrans(E, e.snk, b, a);
    ReachTrans(E, e.snk, a, e.src);
    ReachStep(E, e);
    assert Indirect(E, e.snk);
    assert e in R;
    ReachSnoc(R, a, e);
  }

  // ----- embedded functions -----

  /** m lies strictly below n in the call graph: n calls m, directly or not, but not the other way. */
  ghost predicate Below(E: set<Edge>, n: nat, m: nat) {
    Reach(E, n, m) && !Reach(E, m, n)
  }

  function Callees(calls: set<Edge>): set<nat> {
    set e | e in calls :: e.snk
  }

  // ----- of an indirectly recursive function: what its recursion calls outside itself -----

  /** What the searches from the functions of the recursion collected so far: calls of functions
      outside the recursion, by functions the recursion reaches. */
  ghost predicate Collected(E: set<Edge>, n: nat, cycle: set<nat>, embedded: set<Edge>) {
    forall e {:trigger e in embedded} :: e in embedded ==>
      e in E && e.src != e.snk && e.snk !in cycle && Reach(E, n, e.src)
  }

  /** What these functions and the collected ones call is in the recursion or collected, unless
      the caller is still queued. */
  ghost predicate Closed(E: set<Edge>, cycle: set<nat>, roots: set<nat>, embedded: set<Edge>, Q: seq<nat>) {
    forall e {:trigger e in E} :: e in E && e.src != e.snk && e.src in roots + Callees(embedded) && e.src !in Q ==>
      e.snk in cycle + Callees(embedded)
  }

  /** The children of the front of the queue. */
  method CollectFrom(g: Calls, n: nat, cycle: set<nat>, ghost roots: set<nat>, embedded0: set<Edge>,
                     covered0: set<nat>, Q0: seq<nat>)
    returns (embedded: set<Edge>, covered: set<nat>, Q: seq<nat>)
    requires IsCallGraph(g) && |Q0| > 0 && Q0[0] in g.net.nodes && Reach(g.net.edges, n, Q0[0])
    requires covered0 <= Callees(embedded0) && Collected(g.net.edges, n, cycle, embedded0)
    requires Closed(g.net.edges, cycle, roots, embedded0, Q0)
    ensures embedded0 <= embedded && covered0 <= covered <= Callees(embedded)
    ensures Collected(g.net.edges, n, cycle, embedded)
    ensures Q0 <= Q && (forall m :: m in Q ==> m in Q0 || m in covered) && (covered == covered0 ==> Q == Q0)
    ensures Closed(g.net.edges, cycle, roots, embedded, Q[1..])
  {
    ghost var E := g.net.edges;
    embedded, covered, Q := embedded0, covered0, Q0;
    var front := Q0[0];
    var children, done := g.links.succs[front], {};
    while done < children
      invariant done <= children && embedded0 <= embedded && covered0 <= covered <= Callees(embedded)
      invariant Collected(E, n, cycle, embedded) && Closed(E, cycle, roots, embedded, Q)
      invariant Q0 <= Q && (forall m :: m in Q ==> m in Q0 || m in covered) && (covered == covered0 ==> Q == Q0)
      invariant forall e {:trigger e in done} :: e in done && e.src != e.snk ==> e.snk in cycle + Callees(embedded)
      decreases children - done
    {
      var child :| child in children && child !in done;
      if child.snk !in covered {
        if child.snk != front {
          if child.snk !in cycle {
            CollectStep(E, cycle, roots, embedded, Q, child);
            embedded, Q, covered := embedded + {child}, Q + [child.snk], covered + {child.snk};
          }
        }
      }
      done := done + {child};
    }
    assert done == OutEdges(E, front);
    CollectPop(E, cycle, roots, embedded, Q);
  }

  lemma CollectStep(E: set<Edge>, cycle: set<nat>, roots: set<nat>, embedded: set<Edge>, Q: seq<nat>, child: Edge)
    requires Closed(E, cycle, roots, embedded, Q)
    ensures Closed(E, cycle, roots, embedded + {child}, Q + [child.snk])
    ensures Callees(embedded + {child}) == Callees(embedded) + {child.snk}
  {
    assert Callees(embedded + {child}) == Callees(embedded) + {child.snk};
    assert forall m :: m in Q + [child.snk] <==> m in Q || m == child.snk;
  }

  lemma CollectPop(E: set<Edge>, cycle: set<nat>, roots: set<nat>, embedded: set<Edge>, Q: seq<nat>)
    requires |Q| > 0 && Closed(E, cycle, roots, embedded, Q)
    requires forall e {:trigger e in OutEdges(E, Q[0])} :: e in OutEdges(E, Q[0]) && e.src != e.snk ==>
      e.snk in cycle + Callees(embedded)
    ensures Closed(E, cycle, roots, embedded, Q[1..])
  {
    assert forall m :: m in Q <==> m == Q[0] || m in Q[1..];
    forall e | e in E && e.src != e.snk && e.src in roots + Callees(embedded) && e.src !in Q[1..]
      ensures e.snk in cycle + Callees(embedded)
    {
      if e.src == Q[0] {
        assert e in OutEdges(E, Q[0]);
      }
    }
  }

  /** The search from one function of the recursion. */
  method CollectRoot(g: Calls, n: nat, cycle: set<nat>, ghost roots: set<nat>, embedded0: set<Edge>, root: nat)
    returns (embedded: set<Edge>)
    requires IsCallGraph(g) && root in g.net.nodes && Reach(g.net.edges, n, root)
    requires Collected(g.net.edges, n, cycle, embedded0) && Closed(g.net.edges, cycle, roots, embedded0, [])
    ensures embedded0 <= embedded && Collected(g.net.edges, n, cycle, embedded)
    ensures Closed(g.net.edges, cycle, roots + {root}, embedded, [])
  {
    ghost var E := g.net.edges;
    embedded := embedded0;
    var covered: set<nat>, Q := {}, [root];
    while Q != []
      invariant embedded0 <= embedded && covered <= Callees(embedded) && covered <= g.net.nodes
      invariant Collected(E, n, cycle, embedded) && Closed(E, cycle, roots + {root}, embedded, Q)
      invariant forall m :: m in Q ==> m == root || m in covered
      decreases g.net.nodes - covered, |Q|
    {
      FrontReached(g, n, root, cycle, embedded, covered, Q[0]);
      ghost var before := covered;
      embedded, covered, Q := CollectFrom(g, n, cycle, roots + {root}, embedded, covered, Q);
      CalleesAreNodes(g, n, cycle, embedded);
      if covered != before {
        assert g.net.nodes - covered < g.net.nodes - before;
      }
      assert forall m :: m in Q[1..] ==> m in Q;
      Q := Q[1..];
    }
  }

  lemma CalleesAreNodes(g: Calls, n: nat, cycle: set<nat>, embedded: set<Edge>)
    requires IsCallGraph(g) && Collected(g.net.edges, n, cycle, embedded)
    ensures Callees(embedded) <= g.net.nodes
  {
  }

  lemma FrontReached(g: Calls, n: nat, root: nat, cycle: set<nat>, embedded: set<Edge>, covered: set<nat>, m: nat)
    requires IsCallGraph(g) && Collected(g.net.edges, n, cycle, embedded) && covered <= Callees(embedded)
    requires root in g.net.nodes && Reach(g.net.edges, n, root) && (m == root || m in covered)
    ensures m in g.net.nodes && Reach(g.net.edges, n, m)
  {
    if m != root {
      var e :| e in embedded && e.snk == m;
      ReachSnoc(g.net.edges, n, e);
    }
  }

  /** All functions of the recursion, one after the other. */
  method EmbeddedOfRecursion(g: Calls, n: nat) returns (embedded: set<Edge>)
    requires IsCallGraph(g) && n in g.net.nodes
    ensures forall e {:trigger e in embedded} :: e in embedded ==>
      e in g.net.edges && e.src != e.snk && Reach(g.net.edges, n, e.src) && !InRecursion(g.net.edges, n, e.snk)
    ensures forall c, m {:trigger InRecursion(g.net.edges, n, c), m in Callees(embedded)} ::
      InRecursion(g.net.edges, n, c) && Reach(g.net.edges, c, m) && !InRecursion(g.net.edges, n, m) ==>
            m in Callees(embedded)
  {
    ghost var E := g.net.edges;
    var idrCycle := IndirectRecursionCycle(g, n);
    embedded := {};
    var roots: set<nat> := {};
    while roots < idrCycle
      invariant roots <= idrCycle
      invariant Collected(E, n, idrCycle, embedded) && Closed(E, idrCycle, roots, embedded, [])
      decreases idrCycle - roots
    {
      var node :| node in idrCycle && node !in roots;
      RecursionIsReached(E, n, node);
      embedded := CollectRoot(g, n, idrCycle, roots, embedded, node);
      roots := roots + {node};
    }
    assert roots == idrCycle;
    forall c, m | InRecursion(E, n, c) && Reach(E, c, m) && !InRecursion(E, n, m) ensures m in Callees(embedded) {
      ClosedReaches(E, idrCycle, embedded, c, m);
    }
  }

  lemma RecursionIsReached(E: set<Edge>, n: nat, m: nat)
    requires InRecursion(E, n, m)
    ensures Reach(E, n, m)
  {
    PlusIsReach(IndirectCalls(E), n, m);
    ReachMono(IndirectCalls(E), E, n, m);
  }

  lemma ClosedReaches(E: set<Edge>, cycle: set<nat>, embedded: set<Edge>, c: nat, m: nat)
    requires Closed(E, cycle, cycle, embedded, []) && c in cycle && Reach(E, c, m)
    ensures m in cycle + Callees(embedded)
  {
    forall e | e in E && e.src in cycle + Callees(embedded) ensures e.snk in cycle + Callees(embedded) {
    }
    ReachInduction(E, c, m, (x: nat) => x in cycle + Callees(embedded));
  }

  // ----- of any other function: what it reaches, but of a recursion only its entrances -----

  /** The call counts as embedded: of another function, and into a recursion only from outside. */
  ghost predicate Embeds(E: set<Edge>, e: Edge) {
    e.src != e.snk && (Indirect(E, e.snk) ==> !InRecursion(E, e.snk, e.src))
  }

  /** Is the call embedded? */
  method IsEmbedded(g: Calls, front: nat, child: Edge) returns (r: bool)
    requires IsCallGraph(g) && child in g.net.edges && child.src == front
    ensures r <==> Embeds(g.net.edges, child)
  {
    r := false;
    if child.snk != front {
      var recursive := HasIndirectRecursion(g, child.snk);
      if recursive {
        var entrances := IndirectRecursionEntrances(g, child.snk);
        SelfInRecursion(g.net.edges, child.snk);
        r := child in entrances;
      } else {
        r := true;
      }
    }
  }

  lemma SelfInRecursion(E: set<Edge>, n: nat)
    requires Indirect(E, n)
    ensures InRecursion(E, n, n)
  {
    var m :| m != n && Reach(E, n, m) && Reach(E, m, n);
    MutualIsInRecursion(E, n, m);
  }

  /** Breadth-first over everything n calls: `scanned` functions have left the queue. */
  ghost predicate ScannedSoFar(E: set<Edge>, n: nat, scanned: set<nat>, covered: set<nat>, embedded: set<Edge>,
                           Q: seq<nat>) {
    && (n in scanned || n in Q) && covered <= scanned + Elems(Q)
    && (forall m {:trigger m in Q} :: m in Q ==> Reach(E, n, m))
    && (forall m {:trigger m in scanned} :: m in scanned ==> Reach(E, n, m))
    && (forall e {:trigger e in E} :: e in E && e.src in scanned ==> e.snk in covered)
    && (forall e {:trigger e in embedded} :: e in embedded <==> e in E && e.src in scanned && Embeds(E, e))
  }

  /** The children of the front of the queue. */
  method ScanFunction(g: Calls, front: nat, embedded0: set<Edge>, covered0: set<nat>, Q0: seq<nat>)
    returns (embedded: set<Edge>, covered: set<nat>, Q: seq<nat>)
    requires IsCallGraph(g) && front in g.net.nodes
    ensures forall e {:trigger e in embedded} :: e in embedded <==>
      e in embedded0 || (e in OutEdges(g.net.edges, front) && Embeds(g.net.edges, e))
    ensures covered == covered0 + Callees(OutEdges(g.net.edges, front))
    ensures Q0 <= Q && Elems(Q) == Elems(Q0) + (covered - covered0)
    ensures covered == covered0 ==> Q == Q0
  {
    embedded, covered, Q := embedded0, covered0, Q0;
    var children, done := g.links.succs[front], {};
    while done < children
      invariant done <= children
      invariant forall e {:trigger e in embedded} ::
        e in embedded <==> e in embedded0 || (e in done && Embeds(g.net.edges, e))
      invariant covered == covered0 + Callees(done)
      invariant Q0 <= Q && Elems(Q) == Elems(Q0) + (covered - covered0)
      invariant covered == covered0 ==> Q == Q0
      decreases children - done
    {
      var child :| child in children && child !in done;
      var embeds := IsEmbedded(g, front, child);
      if embeds {
        embedded := embedded + {child};
      }
      assert Callees(done + {child}) == Callees(done) + {child.snk};
      if child.snk !in covered {
        assert Elems(Q + [child.snk]) == Elems(Q) + {child.snk};
        assert covered + {child.snk} - covered0 == (covered - covered0) + {child.snk};
        Q, covered := Q + [child.snk], covered + {child.snk};
      }
      done := done + {child};
    }
    assert done == OutEdges(g.net.edges, front);
  }

  lemma ScanStep(E: set<Edge>, n: nat, scanned: set<nat>, covered0: set<nat>, embedded0: set<Edge>, Q0: seq<nat>,
                 covered: set<nat>, embedded: set<Edge>, Q: seq<nat>)
    requires |Q0| > 0 && ScannedSoFar(E, n, scanned, covered0, embedded0, Q0)
    requires forall e {:trigger e in embedded} ::
      e in embedded <==> e in embedded0 || (e in OutEdges(E, Q0[0]) && Embeds(E, e))
    requires covered == covered0 + Callees(OutEdges(E, Q0[0]))
    requires Q0 <= Q && Elems(Q) == Elems(Q0) + (covered - covered0)
    ensures ScannedSoFar(E, n, scanned + {Q0[0]}, covered, embedded, Q[1..])
  {
    var x := Q0[0];
    assert x in Q0 && Q[0] == x;
    assert forall m :: m in Q <==> m == x || m in Q[1..];
    ElemsTake(Q);
    ElemsTake(Q0);
    ScanReaches(E, n, Q0, covered0, covered, Q);
    assert covered <= scanned + {x} + Elems(Q[1..]);
    assert n in scanned + {x} || n in Q[1..] by {
      assert n in Q0 ==> n in Q;
    }
    forall e | e in E && e.src in scanned + {x} ensures e.snk in covered {
      if e.src == x {
        assert e in OutEdges(E, x);
      }
    }
  }

  lemma ScanReaches(E: set<Edge>, n: nat, Q0: seq<nat>, covered0: set<nat>, covered: set<nat>, Q: seq<nat>)
    requires |Q0| > 0 && (forall m {:trigger m in Q0} :: m in Q0 ==> Reach(E, n, m))
    requires covered == covered0 + Callees(OutEdges(E, Q0[0])) && Elems(Q) == Elems(Q0) + (covered - covered0)
    ensures forall m {:trigger m in Q} :: m in Q ==> Reach(E, n, m)
  {
    assert Q0[0] in Q0;
    forall m | m in Q ensures Reach(E, n, m) {
      assert m in Elems(Q);
      if m !in Q0 {
        var e :| e in OutEdges(E, Q0[0]) && e.snk == m;
        ReachSnoc(E, n, e);
      }
    }
  }

  lemma ScannedAll(E: set<Edge>, n: nat, scanned: set<nat>, covered: set<nat>, embedded: set<Edge>)
    requires ScannedSoFar(E, n, scanned, covered, embedded, [])
    ensures forall e {:trigger e in embedded} :: e in embedded <==> e in E && Reach(E, n, e.src) && Embeds(E, e)
  {
    forall m | Reach(E, n, m) ensures m in scanned {
      assert Elems([]) == {};
      ReachInduction(E, n, m, (x: nat) => x in scanned);
    }
  }

  method EmbeddedOfPlain(g: Calls, n: nat) returns (embedded: set<Edge>)
    requires IsCallGraph(g) && n in g.net.nodes
    ensures forall e {:trigger e in embedded} :: e in embedded <==>
      e in g.net.edges && Reach(g.net.edges, n, e.src) && Embeds(g.net.edges, e)
  {
    ghost var E := g.net.edges;
    embedded := {};
    var covered: set<nat>, Q := {}, [n];
    ghost var scanned: set<nat> := {};
    ReachRefl(E, n);
    while Q != []
      invariant covered <= g.net.nodes && forall m :: m in Q ==> m in g.net.nodes
      invariant ScannedSoFar(E, n, scanned, covered, embedded, Q)
      decreases g.net.nodes - covered, |Q|
    {
      ghost var covered0, embedded0, Q0 := covered, embedded, Q;
      embedded, covered, Q := ScanFunction(g, Q[0], embedded, covered, Q);
      ScanStep(E, n, scanned, covered0, embedded0, Q0, covered, embedded, Q);
      scanned := scanned + {Q[0]};
      StaysInNodes(g, Q0, covered0, covered, Q);
      if covered != covered0 {
        assert g.net.nodes - covered < g.net.nodes - covered0;
      }
      Q := Q[1..];
    }
    ScannedAll(E, n, scanned, covered, embedded);
  }

  lemma StaysInNodes(g: Calls, Q0: seq<nat>, covered0: set<nat>, covered: set<nat>, Q: seq<nat>)
    requires IsCallGraph(g) && |Q0| > 0 && covered0 <= g.net.nodes && forall m :: m in Q0 ==> m in g.net.nodes
    requires covered == covered0 + Callees(OutEdges(g.net.edges, Q0[0]))
    requires Q0 <= Q && Elems(Q) == Elems(Q0) + (covered - covered0)
    ensures covered <= g.net.nodes && forall m :: m in Q ==> m in g.net.nodes
  {
    forall m | m in Q ensures m in g.net.nodes {
      assert m in Elems(Q);
      if m !in Q0 {
        assert m in Callees(OutEdges(g.net.edges, Q0[0]));
      }
    }
  }

  // ----- embedded functions -----

  /** FindEmbeddedFunctions: every function it finds lies strictly below the given one, whatever
      recursion there is. */
  method FindEmbeddedFunctions(g: Calls, n: nat) returns (embedded: set<Edge>)
    requires IsCallGraph(g) && n in g.net.nodes
    ensures forall e {:trigger e in embedded} :: e in embedded ==>
      e in g.net.edges && e.src != e.snk && Reach(g.net.edges, n, e.src) && Below(g.net.edges, n, e.snk)
    ensures !Indirect(g.net.edges, n) ==> forall e {:trigger e in embedded} :: e in embedded <==>
      e in g.net.edges && Reach(g.net.edges, n, e.src) && Embeds(g.net.edges, e)
    ensures Indirect(g.net.edges, n) ==> forall m {:trigger m in Callees(embedded)} :: m in Callees(embedded) <==>
      Reach(g.net.edges, n, m) && !InRecursion(g.net.edges, n, m)
  {
    ghost var E := g.net.edges;
    var recursive := HasIndirectRecursion(g, n);
    if recursive {
      embedded := EmbeddedOfRecursion(g, n);
      SelfInRecursion(E, n);
      forall e | e in embedded ensures Below(E, n, e.snk) {
        OutsideIsBelow(E, n, e);
      }
      forall m ensures m in Callees(embedded) <==> Reach(E, n, m) && !InRecursion(E, n, m) {
      }
    } else {
      embedded := EmbeddedOfPlain(g, n);
      forall e | e in embedded ensures Below(E, n, e.snk) {
        PlainIsBelow(E, n, e);
      }
    }
  }

  lemma OutsideIsBelow(E: set<Edge>, n: nat, e: Edge)
    requires InRecursion(E, n, n) && e in E && Reach(E, n, e.src) && !InRecursion(E, n, e.snk)
    ensures Below(E, n, e.snk)
  {
    ReachSnoc(E, n, e);
    if Reach(E, e.snk, n) {
      MutualIsInRecursion(E, n, e.snk);
    }
  }

  lemma WayBackIsIndirect(E: set<Edge>, n: nat, e: Edge)
    requires e in E && Reach(E, n, e.src) && e.src != e.snk && Reach(E, e.snk, n)
    ensures Indirect(E, n)
  {
    ReachSnoc(E, n, e);
    ReachCons(E, e, n);
    var m := if e.src != n then e.src else e.snk;
    assert m != n && Reach(E, n, m) && Reach(E, m, n);
  }

  lemma PlainIsBelow(E: set<Edge>, n: nat, e: Edge)
    requires !Indirect(E, n) && e in E && Reach(E, n, e.src) && e.src != e.snk
    ensures Below(E, n, e.snk)
  {
    ReachSnoc(E, n, e);
    if Reach(E, e.snk, n) {
      WayBackIsIndirect(E, n, e);
    }
  }

  /** A dependency relation in which every dependency lies strictly below is acyclic. */
  lemma BelowIsAcyclic(E: set<Edge>, deps: set<Edge>)
    requires forall d {:trigger d in deps} :: d in deps ==> Below(E, d.src, d.snk)
    ensures !Cyclic(deps)
  {
    if a :| ReachPlus(deps, a, a) {
      var d :| d in deps && d.src == a && Reach(deps, d.snk, a);
      ReachRefl(E, d.snk);
      forall e | e in deps && Reach(E, d.snk, e.src) ensures Reach(E, d.snk, e.snk) {
        ReachTrans(E, d.snk, e.src, e.snk);
      }
      ReachInduction(deps, d.snk, a, (x: nat) => Reach(E, d.snk, x));
    }
  }
}
