/** Directed graphs as the segmenter sees them: nodes are ids (NID), an edge is identified
    by its endpoints, and a graph is a node set with an edge set. Walks, reachability,
    cycles and the induction principles the other modules use. */
module Graphs {

  /** Edge sets are ordered by (source, sink), so two edges with the same endpoints are one key. */
  datatype Edge = Edge(src: nat, snk: nat)

  /** The two containers of a graph object. Node links are kept elsewhere and shared by
      every graph that holds the node. */
  datatype Net = Net(nodes: set<nat>, edges: set<Edge>)

  datatype Option<T> = None | Some(value: T)

  const EmptyNet := Net({}, {})

  function OutEdges(E: set<Edge>, n: nat): set<Edge> {
    set e | e in E && e.src == n
  }

  function InEdges(E: set<Edge>, n: nat): set<Edge> {
    set e | e in E && e.snk == n
  }

  predicate WellFormed(g: Net) {
    forall e {:trigger e in g.edges} :: e in g.edges ==> e.src in g.nodes && e.snk in g.nodes
  }

  ghost predicate IsWalk(E: set<Edge>, p: seq<nat>) {
    |p| > 0 && forall i :: 0 <= i < |p| - 1 ==> Edge(p[i], p[i + 1]) in E
  }

  ghost predicate Walk(E: set<Edge>, a: nat, b: nat, p: seq<nat>) {
    IsWalk(E, p) && p[0] == a && p[|p| - 1] == b
  }

  /** b can be reached from a in zero or more steps. */
  ghost predicate Reach(E: set<Edge>, a: nat, b: nat) {
    exists p :: Walk(E, a, b, p)
  }

  /** b can be reached from a in one or more steps. */
  ghost predicate ReachPlus(E: set<Edge>, a: nat, b: nat) {
    exists e :: e in E && e.src == a && Reach(E, e.snk, b)
  }

  ghost predicate Cyclic(E: set<Edge>) {
    exists a :: ReachPlus(E, a, a)
  }

  lemma ReachRefl(E: set<Edge>, a: nat)
    ensures Reach(E, a, a)
  {
    assert Walk(E, a, a, [a]);
  }

  lemma ReachTrans(E: set<Edge>, a: nat, b: nat, c: nat)
    requires Reach(E, a, b) && Reach(E, b, c)
    ensures Reach(E, a, c)
  {
    var p :| Walk(E, a, b, p);
    var q :| Walk(E, b, c, q);
    var r := p + q[1..];
    forall i | 0 <= i < |r| - 1 ensures Edge(r[i], r[i + 1]) in E {
      if i < |p| - 1 {
      } else {
        assert r[i] == q[i - |p| + 1];
      }
    }
    assert Walk(E, a, c, r);
  }

  lemma ReachStep(E: set<Edge>, e: Edge)
    requires e in E
    ensures Reach(E, e.src, e.snk)
  {
    assert Walk(E, e.src, e.snk, [e.src, e.snk]);
  }

  lemma ReachSnoc(E: set<Edge>, a: nat, e: Edge)
    requires Reach(E, a, e.src) && e in E
    ensures Reach(E, a, e.snk) && ReachPlus(E, a, e.snk)
  {
    ReachStep(E, e);
    ReachTrans(E, a, e.src, e.snk);
    var p :| Walk(E, a, e.src, p);
    if |p| == 1 {
      ReachRefl(E, e.snk);
    } else {
      assert Walk(E, p[1], e.src, p[1..]);
      ReachTrans(E, p[1], e.src, e.snk);
      assert Edge(p[0], p[1]) in E;
    }
  }

  lemma ReachCons(E: set<Edge>, e: Edge, b: nat)
    requires e in E && Reach(E, e.snk, b)
    ensures Reach(E, e.src, b) && ReachPlus(E, e.src, b)
  {
    ReachStep(E, e);
    ReachTrans(E, e.src, e.snk, b);
  }

  lemma PlusIsReach(E: set<Edge>, a: nat, b: nat)
    requires ReachPlus(E, a, b)
    ensures Reach(E, a, b)
  {
    var e :| e in E && e.src == a && Reach(E, e.snk, b);
    ReachCons(E, e, b);
  }

  lemma ReachIsPlus(E: set<Edge>, a: nat, b: nat)
    requires Reach(E, a, b) && a != b
    ensures ReachPlus(E, a, b)
  {
    var p :| Walk(E, a, b, p);
    assert Walk(E, p[1], b, p[1..]);
    assert Edge(p[0], p[1]) in E;
  }

  /** The last step of a non-empty journey. */
  lemma PlusLast(E: set<Edge>, a: nat, b: nat) returns (e: Edge)
    requires ReachPlus(E, a, b)
    ensures e in E && e.snk == b && Reach(E, a, e.src)
  {
    var f :| f in E && f.src == a && Reach(E, f.snk, b);
    var p :| Walk(E, f.snk, b, p);
    if |p| == 1 {
      e := f;
      ReachRefl(E, a);
    } else {
      e := Edge(p[|p| - 2], p[|p| - 1]);
      assert Walk(E, f.snk, e.src, p[..|p| - 1]);
      ReachCons(E, f, e.src);
    }
  }

  lemma PlusTrans(E: set<Edge>, a: nat, b: nat, c: nat)
    requires (Reach(E, a, b) && ReachPlus(E, b, c)) || (ReachPlus(E, a, b) && Reach(E, b, c))
    ensures ReachPlus(E, a, c)
  {
    if ReachPlus(E, a, b) && Reach(E, b, c) {
      var e :| e in E && e.src == a && Reach(E, e.snk, b);
      ReachTrans(E, e.snk, b, c);
    } else {
      var e := PlusLast(E, b, c);
      ReachTrans(E, a, b, e.src);
      ReachSnoc(E, a, e);
    }
  }

  lemma ReachMono(E: set<Edge>, F: set<Edge>, a: nat, b: nat)
    requires E <= F && Reach(E, a, b)
    ensures Reach(F, a, b)
  {
    var p :| Walk(E, a, b, p);
    assert Walk(F, a, b, p);
  }

  /** Forward induction along a journey: what holds at the start and is carried over every edge
      holds at the end. */
  lemma ReachInduction(E: set<Edge>, a: nat, b: nat, P: nat -> bool)
    requires Reach(E, a, b) && P(a)
    requires forall e :: e in E && P(e.src) ==> P(e.snk)
    ensures P(b)
  {
    var p :| Walk(E, a, b, p);
    var i := 0;
    while i < |p| - 1
      invariant 0 <= i <= |p| - 1
      invariant P(p[i])
    {
      assert Edge(p[i], p[i + 1]) in E;
      i := i + 1;
    }
  }

  /** Backward induction along a journey. */
  lemma ReachBackInduction(E: set<Edge>, a: nat, b: nat, P: nat -> bool)
    requires Reach(E, a, b) && P(b)
    requires forall e :: e in E && P(e.snk) ==> P(e.src)
    ensures P(a)
  {
    var p :| Walk(E, a, b, p);
    var i := |p| - 1;
    while i > 0
      invariant 0 <= i <= |p| - 1
      invariant P(p[i])
    {
      assert Edge(p[i - 1], p[i]) in E;
      i := i - 1;
    }
  }

  /** A rank that strictly increases along every edge rules out cycles. */
  lemma RankedIsAcyclic(E: set<Edge>, rank: nat -> int)
    requires forall e :: e in E ==> rank(e.src) < rank(e.snk)
    ensures !Cyclic(E)
  {
    if a :| ReachPlus(E, a, a) {
      var e :| e in E && e.src == a && Reach(E, e.snk, a);
      ReachInduction(E, e.snk, a, (x: nat) => rank(x) > rank(a));
    }
  }

  /** So does a rank of edges that strictly increases from each edge to the next. */
  lemma EdgeRankedIsAcyclic(E: set<Edge>, rank: Edge -> int)
    requires forall e, f {:trigger e in E, f in E} :: e in E && f in E && e.snk == f.src ==> rank(e) < rank(f)
    ensures !Cyclic(E)
  {
    if a :| ReachPlus(E, a, a) {
      var e :| e in E && e.src == a && Reach(E, e.snk, a);
      var P := (x: nat) => forall f {:trigger f in E} :: f in E && f.src == x ==> rank(e) < rank(f);
      ReachInduction(E, e.snk, a, P);
    }
  }

  lemma ReachInNodes(g: Net, a: nat, b: nat)
    requires WellFormed(g) && Reach(g.edges, a, b)
    ensures a == b || (a in g.nodes && b in g.nodes)
  {
    if a != b {
      ReachIsPlus(g.edges, a, b);
      var e := PlusLast(g.edges, a, b);
    }
  }
}
