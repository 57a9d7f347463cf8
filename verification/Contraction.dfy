/** What replacing a subgraph by one virtual node does to the edges of a graph, as a theory of
    reachability and cycles. */
module Contraction {
  import opened Graphs
  import opened Regions

  /** Where a node is after the contraction of `N` into `vn`. */
  function Rep(N: set<nat>, vn: nat, n: nat): nat {
    if n in N then vn else n
  }

  function RepEdge(N: set<nat>, vn: nat, e: Edge): Edge {
    Edge(Rep(N, vn, e.src), Rep(N, vn, e.snk))
  }

  /** The edges after contraction: those of the subgraph disappear, the others are moved to the
      virtual node at whichever end they touched the subgraph. */
  function Quotient(E: set<Edge>, sub: Net, vn: nat): set<Edge> {
    set e | e in E && e !in sub.edges :: RepEdge(sub.nodes, vn, e)
  }

  /** Every edge that enters the subgraph can be followed, inside, to every edge that leaves it. */
  ghost predicate Through(E: set<Edge>, sub: Net) {
    forall e, f {:trigger e in E, f in E} ::
      e in E && f in E && e !in sub.edges && f !in sub.edges && e.snk in sub.nodes && f.src in sub.nodes
      ==> Reach(sub.edges, e.snk, f.src)
  }

  /** Any two nodes of the subgraph reach each other inside it. */
  ghost predicate Looped(E: set<Edge>, sub: Net) {
    && sub.edges <= E && WellFormed(sub)
    && forall a, b :: a in sub.nodes && b in sub.nodes ==> Reach(sub.edges, a, b)
  }

  lemma RegionIsThrough(E: set<Edge>, sub: Net, s: nat, t: nat)
    requires Region(E, sub, s, t)
    ensures Through(E, sub)
  {
  }

  lemma LoopedIsThrough(E: set<Edge>, sub: Net)
    requires Looped(E, sub)
    ensures Through(E, sub)
  {
  }

  // ----- contraction never loses a connection -----

  lemma EdgeSurvives(E: set<Edge>, sub: Net, vn: nat, e: Edge)
    requires WellFormed(sub) && e in E
    ensures Reach(Quotient(E, sub, vn), Rep(sub.nodes, vn, e.src), Rep(sub.nodes, vn, e.snk))
    ensures e !in sub.edges ==> RepEdge(sub.nodes, vn, e) in Quotient(E, sub, vn)
  {
    if e in sub.edges {
      ReachRefl(Quotient(E, sub, vn), vn);
    } else {
      ReachStep(Quotient(E, sub, vn), RepEdge(sub.nodes, vn, e));
    }
  }

  lemma KeepsReach(E: set<Edge>, sub: Net, vn: nat, a: nat, b: nat)
    requires WellFormed(sub) && Reach(E, a, b)
    ensures Reach(Quotient(E, sub, vn), Rep(sub.nodes, vn, a), Rep(sub.nodes, vn, b))
  {
    var Q := Quotient(E, sub, vn);
    var P := (x: nat) => Reach(Q, Rep(sub.nodes, vn, a), Rep(sub.nodes, vn, x));
    ReachRefl(Q, Rep(sub.nodes, vn, a));
    forall e | e in E && P(e.src) ensures P(e.snk) {
      EdgeSurvives(E, sub, vn, e);
      ReachTrans(Q, Rep(sub.nodes, vn, a), Rep(sub.nodes, vn, e.src), Rep(sub.nodes, vn, e.snk));
    }
    ReachInduction(E, a, b, P);
  }

  /** When every node can be reached from a first node, every node of the contracted graph can be
      reached from where the first node is now. */
  lemma KeepsRooted(E: set<Edge>, nodes: set<nat>, sub: Net, vn: nat, first: nat)
    requires WellFormed(sub) && sub.nodes <= nodes && forall n :: n in nodes ==> Reach(E, first, n)
    ensures forall n :: n in nodes - sub.nodes ==> Reach(Quotient(E, sub, vn), Rep(sub.nodes, vn, first), n)
    ensures sub.nodes != {} ==> Reach(Quotient(E, sub, vn), Rep(sub.nodes, vn, first), vn)
  {
    forall n | n in nodes ensures Reach(Quotient(E, sub, vn), Rep(sub.nodes, vn, first), Rep(sub.nodes, vn, n)) {
      KeepsReach(E, sub, vn, first, n);
    }
    forall n | n in nodes - sub.nodes ensures Reach(Quotient(E, sub, vn), Rep(sub.nodes, vn, first), n) {
      assert Rep(sub.nodes, vn, n) == n;
    }
    if m :| m in sub.nodes {
      assert Rep(sub.nodes, vn, m) == vn;
    }
  }

  lemma UsedOutside(E: set<Edge>, I: set<Edge>, a: nat, b: nat) returns (e: Edge)
    requires ReachPlus(E, a, b) && !ReachPlus(I, a, b)
    ensures e in E && e !in I && Reach(E, a, e.src) && Reach(E, e.snk, b)
  {
    var f :| f in E && f.src == a && Reach(E, f.snk, b);
    if f !in I {
      e := f;
      ReachRefl(E, a);
    } else {
      if forall g {:trigger g in E} :: g in E && Reach(E, f.snk, g.src) && Reach(E, g.snk, b) ==> g in I {
        StaysInside(E, I, f.snk, b);
      }
      e :| e in E && Reach(E, f.snk, e.src) && Reach(E, e.snk, b) && e !in I;
      ReachCons(E, f, e.src);
    }
  }

  lemma StaysInside(E: set<Edge>, I: set<Edge>, a: nat, b: nat)
    requires Reach(E, a, b)
    requires forall g {:trigger g in E} :: g in E && Reach(E, a, g.src) && Reach(E, g.snk, b) ==> g in I
    ensures Reach(I, a, b)
  {
    var P := (x: nat) => Reach(E, x, b) && Reach(E, a, x) ==> Reach(I, x, b);
    var p :| Walk(E, a, b, p);
    var i := |p| - 1;
    ReachRefl(I, b);
    ReachRefl(E, b);
    while i > 0
      invariant 0 <= i < |p|
      invariant Reach(I, p[i], b) && Reach(E, p[i], b)
    {
      var g := Edge(p[i - 1], p[i]);
      assert Walk(E, a, p[i - 1], p[..i]);
      assert g in I;
      ReachCons(I, g, b);
      ReachCons(E, g, b);
      i := i - 1;
    }
  }

  /** No cycle is lost when the contracted subgraph has none. */
  lemma KeepsCycles(E: set<Edge>, sub: Net, vn: nat, a: nat)
    requires WellFormed(sub) && !Cyclic(sub.edges) && ReachPlus(E, a, a)
    ensures ReachPlus(Quotient(E, sub, vn), Rep(sub.nodes, vn, a), Rep(sub.nodes, vn, a))
  {
    var Q, r := Quotient(E, sub, vn), Rep(sub.nodes, vn, a);
    var e := UsedOutside(E, sub.edges, a, a);
    var q := RepEdge(sub.nodes, vn, e);
    KeepsReach(E, sub, vn, a, e.src);
    KeepsReach(E, sub, vn, e.snk, a);
    EdgeSurvives(E, sub, vn, e);
    ReachSnoc(Q, r, q);
    PlusTrans(Q, r, q.snk, r);
  }

  // ----- contraction of a region adds no connection -----

  function EntryOf(vn: nat, s: nat, u: nat): nat {
    if u == vn then s else u
  }

  lemma QuotientEdge(E: set<Edge>, sub: Net, vn: nat, q: Edge) returns (e: Edge)
    requires q in Quotient(E, sub, vn)
    ensures e in E && e !in sub.edges && RepEdge(sub.nodes, vn, e) == q
  {
    e :| e in E && e !in sub.edges && RepEdge(sub.nodes, vn, e) == q;
  }

  /** No edge touches the id of the new node. */
  predicate Fresh(E: set<Edge>, vn: nat) {
    forall e {:trigger e in E} :: e in E ==> e.src != vn && e.snk != vn
  }

  lemma RegionEdge(E: set<Edge>, sub: Net, s: nat, t: nat, vn: nat, q: Edge)
    requires Region(E, sub, s, t) && Fresh(E, vn) && q in Quotient(E, sub, vn)
    ensures Edge(EntryOf(vn, t, q.src), EntryOf(vn, s, q.snk)) in E
  {
    var e := QuotientEdge(E, sub, vn, q);
    assert e == Edge(e.src, e.snk);
  }

  /** A journey in the contracted graph is a journey in the original one, from the exit of
      where it starts to the entry of where it ends. */
  lemma RegionAddsNothing(E: set<Edge>, sub: Net, s: nat, t: nat, vn: nat, u: nat, v: nat)
    requires Region(E, sub, s, t) && Fresh(E, vn) && ReachPlus(Quotient(E, sub, vn), u, v)
    ensures ReachPlus(E, EntryOf(vn, t, u), EntryOf(vn, s, v))
  {
    var Q := Quotient(E, sub, vn);
    var x := EntryOf(vn, t, u);
    var q :| q in Q && q.src == u && Reach(Q, q.snk, v);
    var P := (y: nat) => ReachPlus(E, x, EntryOf(vn, s, y));
    RegionEdge(E, sub, s, t, vn, q);
    ReachRefl(E, EntryOf(vn, s, q.snk));
    assert P(q.snk) by {
      var e := Edge(x, EntryOf(vn, s, q.snk));
      assert e in E && e.src == x && Reach(E, e.snk, EntryOf(vn, s, q.snk));
    }
    forall f | f in Q && P(f.src) ensures P(f.snk) {
      RegionEdge(E, sub, s, t, vn, f);
      if f.src == vn {
        ReachMono(sub.edges, E, s, t);
        PlusTrans(E, x, s, t);
      }
      PlusIsReach(E, x, EntryOf(vn, t, f.src));
      ReachSnoc(E, x, Edge(EntryOf(vn, t, f.src), EntryOf(vn, s, f.snk)));
    }
    ReachInduction(Q, q.snk, v, P);
  }

  /** Contracting a region is faithful: between nodes that end up apart, and from a node back to
      itself, exactly the same journeys exist before and after. */
  lemma RegionFaithful(E: set<Edge>, sub: Net, s: nat, t: nat, vn: nat, a: nat, b: nat)
    requires Region(E, sub, s, t) && Fresh(E, vn) && a != vn && b != vn
    requires Rep(sub.nodes, vn, a) != Rep(sub.nodes, vn, b) || a == b
    ensures ReachPlus(E, a, b) <==> ReachPlus(Quotient(E, sub, vn), Rep(sub.nodes, vn, a), Rep(sub.nodes, vn, b))
  {
    var Q, u, v := Quotient(E, sub, vn), Rep(sub.nodes, vn, a), Rep(sub.nodes, vn, b);
    if ReachPlus(E, a, b) {
      if a == b {
        KeepsCycles(E, sub, vn, a);
      } else {
        PlusIsReach(E, a, b);
        KeepsReach(E, sub, vn, a, b);
        ReachIsPlus(Q, u, v);
      }
    }
    if ReachPlus(Q, u, v) {
      RegionAddsNothing(E, sub, s, t, vn, u, v);
      var x, y := EntryOf(vn, t, u), EntryOf(vn, s, v);
      if a in sub.nodes {
        ReachMono(sub.edges, E, a, t);
      } else {
        ReachRefl(E, a);
      }
      PlusTrans(E, a, x, y);
      if b in sub.nodes {
        ReachMono(sub.edges, E, s, b);
      } else {
        ReachRefl(E, b);
      }
      PlusTrans(E, a, y, b);
    }
  }

  /** The graph has a cycle after exactly when it had one before. */
  lemma RegionKeepsAcyclicity(E: set<Edge>, sub: Net, s: nat, t: nat, vn: nat)
    requires Region(E, sub, s, t) && Fresh(E, vn)
    ensures Cyclic(E) <==> Cyclic(Quotient(E, sub, vn))
  {
    var Q := Quotient(E, sub, vn);
    if a :| ReachPlus(E, a, a) {
      KeepsCycles(E, sub, vn, a);
    }
    if u :| ReachPlus(Q, u, u) {
      var q :| q in Q && q.src == u && Reach(Q, q.snk, u);
      var e := QuotientEdge(E, sub, vn, q);
      var a := if u == vn then s else u;
      assert a != vn by {
        if a == vn {
          NoEdgeAtFresh(E, sub, s, t, vn);
        }
      }
      RegionFaithful(E, sub, s, t, vn, a, a);
    }
  }

  lemma NoEdgeAtFresh(E: set<Edge>, sub: Net, s: nat, t: nat, vn: nat)
    requires Region(E, sub, s, t) && Fresh(E, vn)
    ensures s != vn && t != vn
  {
    ReachIsPlus(sub.edges, s, t);
    var e :| e in sub.edges && e.src == s && Reach(sub.edges, e.snk, t);
    var f := PlusLast(sub.edges, s, t);
    assert e in E && f in E;
  }

  /** The new node has a self-edge exactly when the exit led straight back to the entry. */
  lemma BackEdgeIsSelfEdge(E: set<Edge>, sub: Net, s: nat, t: nat, vn: nat)
    requires Region(E, sub, s, t) && Fresh(E, vn)
    ensures Edge(vn, vn) in Quotient(E, sub, vn) <==> Edge(t, s) in E
  {
    if Edge(vn, vn) in Quotient(E, sub, vn) {
      RegionEdge(E, sub, s, t, vn, Edge(vn, vn));
    }
    if Edge(t, s) in E {
      if Edge(t, s) in sub.edges {
        ExitIsLast(E, sub, s, t, Edge(t, s));
      }
      EdgeSurvives(E, sub, vn, Edge(t, s));
    }
  }

  // ----- contraction of any subgraph that can be crossed -----

  /** Between two nodes outside, contraction neither adds nor removes a connection. */
  lemma ThroughKeepsOutside(E: set<Edge>, sub: Net, vn: nat, u: nat, v: nat)
    requires sub.edges <= E && WellFormed(sub) && Through(E, sub) && Fresh(E, vn)
    requires u !in sub.nodes && v !in sub.nodes && u != vn && v != vn
    ensures Reach(E, u, v) <==> Reach(Quotient(E, sub, vn), u, v)
  {
    var Q := Quotient(E, sub, vn);
    if Reach(E, u, v) {
      KeepsReach(E, sub, vn, u, v);
    }
    if Reach(Q, u, v) {
      var P := (x: nat) => if x == vn then
          exists e :: e in E && e !in sub.edges && e.snk in sub.nodes && Reach(E, u, e.snk)
        else Reach(E, u, x);
      ReachRefl(E, u);
      forall q | q in Q && P(q.src) ensures P(q.snk) {
        var f := QuotientEdge(E, sub, vn, q);
        if q.src == vn {
          var e :| e in E && e !in sub.edges && e.snk in sub.nodes && Reach(E, u, e.snk);
          assert Reach(sub.edges, e.snk, f.src);
          ReachMono(sub.edges, E, e.snk, f.src);
          ReachTrans(E, u, e.snk, f.src);
        }
        ReachSnoc(E, u, f);
      }
      ReachInduction(Q, u, v, P);
    }
  }

  /** So do regions and nodes that all reach each other: whatever the program contracts. */
  lemma ContractionKeepsOutside(E: set<Edge>, sub: Net, s: nat, t: nat, vn: nat, u: nat, v: nat)
    requires (Region(E, sub, s, t) || Looped(E, sub)) && Fresh(E, vn)
    requires u !in sub.nodes && v !in sub.nodes && u != vn && v != vn
    ensures Reach(E, u, v) <==> Reach(Quotient(E, sub, vn), u, v)
  {
    if Region(E, sub, s, t) {
      RegionIsThrough(E, sub, s, t);
    } else {
      LoopedIsThrough(E, sub);
    }
    ThroughKeepsOutside(E, sub, vn, u, v);
  }

  /** When the contracted nodes all reach each other, every journey of the contracted graph
      exists between any two nodes it stands for. */
  lemma LoopedAddsNothing(E: set<Edge>, sub: Net, vn: nat, a: nat, b: nat)
    requires Looped(E, sub) && Fresh(E, vn) && a != vn && b != vn
    ensures Reach(Quotient(E, sub, vn), Rep(sub.nodes, vn, a), Rep(sub.nodes, vn, b)) <==> Reach(E, a, b)
    ensures ReachPlus(Quotient(E, sub, vn), Rep(sub.nodes, vn, a), Rep(sub.nodes, vn, a)) ==> ReachPlus(E, a, a)
  {
    var Q, u := Quotient(E, sub, vn), Rep(sub.nodes, vn, a);
    if Reach(E, a, b) {
      KeepsReach(E, sub, vn, a, b);
    }
    var P := (x: nat) =>
      forall n {:trigger Rep(sub.nodes, vn, n)} :: n != vn && Rep(sub.nodes, vn, n) == x ==> Reach(E, a, n);
    assert P(u) by {
      forall n | n != vn && Rep(sub.nodes, vn, n) == u ensures Reach(E, a, n) {
        LoopedClass(E, sub, vn, a, n);
      }
    }
    forall q | q in Q && P(q.src) ensures P(q.snk) {
      var f := QuotientEdge(E, sub, vn, q);
      assert Reach(E, a, f.src);
      ReachSnoc(E, a, f);
      forall n | n != vn && Rep(sub.nodes, vn, n) == q.snk ensures Reach(E, a, n) {
        LoopedClass(E, sub, vn, f.snk, n);
        ReachTrans(E, a, f.snk, n);
      }
    }
    if Reach(Q, u, Rep(sub.nodes, vn, b)) {
      ReachInduction(Q, u, Rep(sub.nodes, vn, b), P);
    }
    if ReachPlus(Q, u, u) {
      var q := PlusLast(Q, u, u);
      ReachInduction(Q, u, q.src, P);
      var f := QuotientEdge(E, sub, vn, q);
      assert Reach(E, a, f.src);
      ReachSnoc(E, a, f);
      LoopedClass(E, sub, vn, f.snk, a);
      PlusTrans(E, a, f.snk, a);
    }
  }

  lemma LoopedClass(E: set<Edge>, sub: Net, vn: nat, a: nat, b: nat)
    requires Looped(E, sub) && a != vn && b != vn && Rep(sub.nodes, vn, a) == Rep(sub.nodes, vn, b)
    ensures Reach(E, a, b)
  {
    if a in sub.nodes {
      ReachMono(sub.edges, E, a, b);
    } else {
      ReachRefl(E, a);
    }
  }

  // ----- whole runs -----

  /** `home` sends every original node to the current node it is buried in. Journeys between
      different current nodes, and from a node back to itself, are exactly the original ones. */
  ghost predicate Faithful(E0: set<Edge>, E: set<Edge>, home: map<nat, nat>) {
    forall a, b {:trigger ReachPlus(E0, a, b)} {:trigger ReachPlus(E, home[a], home[b])} ::
      a in home && b in home && (home[a] != home[b] || a == b) ==>
      (ReachPlus(E0, a, b) <==> ReachPlus(E, home[a], home[b]))
  }

  /** Journeys between different current nodes are exactly the original ones, and no cycle is new. */
  ghost predicate Sound(E0: set<Edge>, E: set<Edge>, home: map<nat, nat>) {
    && (forall a, b {:trigger Reach(E0, a, b)} {:trigger Reach(E, home[a], home[b])} ::
          a in home && b in home && home[a] != home[b] ==> (Reach(E0, a, b) <==> Reach(E, home[a], home[b])))
    && (forall a {:trigger ReachPlus(E, home[a], home[a])} {:trigger ReachPlus(E0, a, a)} ::
          a in home && ReachPlus(E, home[a], home[a]) ==> ReachPlus(E0, a, a))
  }

  function Move(home: map<nat, nat>, N: set<nat>, vn: nat): map<nat, nat> {
    map a | a in home :: Rep(N, vn, home[a])
  }

  lemma FaithfulStep(E0: set<Edge>, E: set<Edge>, home: map<nat, nat>, sub: Net, s: nat, t: nat, vn: nat)
    requires Faithful(E0, E, home) && Region(E, sub, s, t) && Fresh(E, vn) && vn !in home.Values
    ensures Faithful(E0, Quotient(E, sub, vn), Move(home, sub.nodes, vn))
  {
    var next := Move(home, sub.nodes, vn);
    forall a, b | a in next && b in next && (next[a] != next[b] || a == b)
      ensures ReachPlus(E0, a, b) <==> ReachPlus(Quotient(E, sub, vn), next[a], next[b])
    {
      assert home[a] in home.Values && home[b] in home.Values;
      RegionFaithful(E, sub, s, t, vn, home[a], home[b]);
    }
  }

  lemma SoundStep(E0: set<Edge>, E: set<Edge>, home: map<nat, nat>, sub: Net, vn: nat)
    requires Sound(E0, E, home) && Looped(E, sub) && Fresh(E, vn) && vn !in home.Values
    ensures Sound(E0, Quotient(E, sub, vn), Move(home, sub.nodes, vn))
  {
    var next := Move(home, sub.nodes, vn);
    forall a, b | a in next && b in next && next[a] != next[b]
      ensures Reach(E0, a, b) <==> Reach(Quotient(E, sub, vn), next[a], next[b])
    {
      assert home[a] in home.Values && home[b] in home.Values;
      LoopedAddsNothing(E, sub, vn, home[a], home[b]);
    }
    forall a | a in next && ReachPlus(Quotient(E, sub, vn), next[a], next[a]) ensures ReachPlus(E0, a, a) {
      assert home[a] in home.Values;
      LoopedAddsNothing(E, sub, vn, home[a], home[a]);
    }
  }

  lemma SoundRegionStep(E0: set<Edge>, E: set<Edge>, home: map<nat, nat>, sub: Net, s: nat, t: nat, vn: nat)
    requires Sound(E0, E, home) && Region(E, sub, s, t) && Fresh(E, vn) && vn !in home.Values
    ensures Sound(E0, Quotient(E, sub, vn), Move(home, sub.nodes, vn))
  {
    var Q, next := Quotient(E, sub, vn), Move(home, sub.nodes, vn);
    forall a, b | a in next && b in next && next[a] != next[b]
      ensures Reach(E0, a, b) <==> Reach(Q, next[a], next[b])
    {
      assert home[a] in home.Values && home[b] in home.Values;
      RegionFaithful(E, sub, s, t, vn, home[a], home[b]);
      PlusOrSame(E, home[a], home[b]);
      PlusOrSame(Q, next[a], next[b]);
    }
    forall a | a in next && ReachPlus(Q, next[a], next[a]) ensures ReachPlus(E0, a, a) {
      assert home[a] in home.Values;
      RegionFaithful(E, sub, s, t, vn, home[a], home[a]);
    }
  }

  lemma PlusOrSame(E: set<Edge>, a: nat, b: nat)
    requires a != b
    ensures Reach(E, a, b) <==> ReachPlus(E, a, b)
  {
    if Reach(E, a, b) {
      ReachIsPlus(E, a, b);
    }
    if ReachPlus(E, a, b) {
      PlusIsReach(E, a, b);
    }
  }

  /** Over a whole run the graph is cyclic exactly when the original was. */
  lemma FaithfulKeepsCycles(E0: set<Edge>, g: Net, home: map<nat, nat>)
    requires Faithful(E0, g.edges, home) && WellFormed(g) && home.Values == g.nodes
    requires forall e {:trigger e in E0} :: e in E0 ==> e.src in home
    ensures Cyclic(E0) <==> Cyclic(g.edges)
  {
    if a :| ReachPlus(E0, a, a) {
      assert a in home;
      assert ReachPlus(g.edges, home[a], home[a]);
    }
    if u :| ReachPlus(g.edges, u, u) {
      assert u in home.Values;
      var a :| a in home && home[a] == u;
      assert ReachPlus(E0, a, a);
    }
  }

  // ----- sizes -----

  /** Contraction strictly lowers the number of edges as soon as the subgraph has one. */
  lemma QuotientIsSmaller(E: set<Edge>, sub: Net, vn: nat)
    requires sub.edges <= E && sub.edges != {}
    ensures |Quotient(E, sub, vn)| < |E|
  {
    var rest := E - sub.edges;
    assert |rest| < |E| by {
      var d := E - rest;
      assert E == rest + d && |E| == |rest| + |d|;
      assert d == sub.edges;
    }
    ImageSize(rest, sub.nodes, vn);
    assert Quotient(E, sub, vn) == set e | e in rest :: RepEdge(sub.nodes, vn, e);
  }

  lemma ImageTake(S: set<Edge>, N: set<nat>, vn: nat, x: Edge)
    requires x in S
    ensures (set e | e in S :: RepEdge(N, vn, e)) == (set e | e in S - {x} :: RepEdge(N, vn, e)) + {RepEdge(N, vn, x)}
  {
  }

  lemma ImageSize(S: set<Edge>, N: set<nat>, vn: nat)
    ensures |set e | e in S :: RepEdge(N, vn, e)| <= |S|
  {
    if S != {} {
      var x :| x in S;
      ImageSize(S - {x}, N, vn);
      ImageTake(S, N, vn, x);
      var T := set e | e in S - {x} :: RepEdge(N, vn, e);
      assert |T + {RepEdge(N, vn, x)}| <= |T| + 1;
    }
  }
}
