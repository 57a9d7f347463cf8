/** What contraction does to frequencies, probabilities and the profile edges behind each edge. */
module Flow {
  import opened Graphs
  import opened CycleSearch
  import opened Regions
  import opened Contraction
  import opened ControlState

  // ----- boundary edges are moved one to one -----

  ghost predicate MovesApart(S: set<Edge>, N: set<nat>, vn: nat) {
    forall e, d {:trigger e in S, d in S} :: e in S && d in S && RepEdge(N, vn, e) == RepEdge(N, vn, d) ==> e == d
  }

  /** No two edges outside the subgraph end up under the same key, and no edge object made for
      a way back into the subgraph covers an edge inside it. */
  ghost predicate Narrow(E: set<Edge>, sub: Net, vn: nat) {
    && MovesApart(E - sub.edges, sub.nodes, vn)
    && (forall e {:trigger e in E} :: e in E && e !in sub.edges && e.src in sub.nodes && e.snk in sub.nodes
          ==> OutEdges(sub.edges, e.src) == {})
  }

  ghost predicate NarrowStep(g0: GraphState, h: GraphState, sub: Net, vn: nat) {
    && Contractible(g0, sub, vn) && Narrow(g0.edges, sub, vn) && Virtualized(g0, h, sub, vn)
  }

  ghost predicate RegionStep(g0: GraphState, h: GraphState, sub: Net, s: nat, t: nat, vn: nat) {
    && Contractible(g0, sub, vn) && Region(g0.edges, sub, s, t) && Virtualized(g0, h, sub, vn)
  }

  lemma BoundaryEdge(E: set<Edge>, sub: Net, s: nat, t: nat, e: Edge)
    requires Region(E, sub, s, t) && e in E && e !in sub.edges
    ensures e.snk in sub.nodes ==> e.snk == s
    ensures e.src in sub.nodes ==> e.src == t
  {
  }

  /** The boundary of a region is narrow: its entry is the only sink, its exit the only source. */
  lemma RegionIsNarrow(E: set<Edge>, sub: Net, s: nat, t: nat, vn: nat)
    requires Region(E, sub, s, t) && Fresh(E, vn)
    ensures Narrow(E, sub, vn)
  {
    var S := E - sub.edges;
    forall e, d | e in S && d in S && RepEdge(sub.nodes, vn, e) == RepEdge(sub.nodes, vn, d) ensures e == d {
      BoundaryEdge(E, sub, s, t, e);
      BoundaryEdge(E, sub, s, t, d);
    }
    forall e | e in S && e.src in sub.nodes && e.snk in sub.nodes ensures OutEdges(sub.edges, e.src) == {} {
      BoundaryEdge(E, sub, s, t, e);
      forall f | f in OutEdges(sub.edges, t) ensures false {
        ExitIsLast(E, sub, s, t, f);
      }
    }
  }

  lemma RegionStepIsNarrow(g0: GraphState, h: GraphState, sub: Net, s: nat, t: nat, vn: nat)
    requires RegionStep(g0, h, sub, s, t, vn)
    ensures NarrowStep(g0, h, sub, vn)
  {
    FreshId(g0);
    RegionIsNarrow(g0.edges, sub, s, t, vn);
  }

  lemma SameKeySameEdge(E: set<Edge>, sub: Net, vn: nat, e: Edge, d: Edge)
    requires Narrow(E, sub, vn) && e in E && d in E && e !in sub.edges && d !in sub.edges
    requires RepEdge(sub.nodes, vn, e) == RepEdge(sub.nodes, vn, d)
    ensures e == d
  {
    assert e in E - sub.edges && d in E - sub.edges;
  }

  /** A node's only edge into the subgraph is the one that is not the subgraph's own. */
  lemma SingleEntry(g: GraphState, sub: Net, vn: nat, e: Edge)
    requires Valid(g) && Narrow(g.edges, sub, vn) && WellFormed(sub)
    requires e in g.edges && e !in sub.edges && e.snk in sub.nodes
    ensures Into(g, sub.nodes, e.src) == {e}
  {
    assert e in g.succs[e.src];
    forall f | f in Into(g, sub.nodes, e.src) ensures f == e {
      assert f in sub.edges ==> f in OutEdges(sub.edges, e.src);
      if f !in sub.edges {
        SameKeySameEdge(g.edges, sub, vn, e, f);
      }
    }
  }

  lemma SumOne(f: Edge -> nat, e: Edge)
    ensures Sum({e}, f) == f(e)
  {
    SumTake({e}, f, e);
    assert {e} - {e} == {};
  }

  /** The share of a node's frequency that goes into one edge. */
  ghost function Share(g: GraphState, e: Edge): real
    requires Valid(g) && e in g.edges
  {
    if Sum(OutEdges(g.edges, e.src), FreqIn(g.body)) == 0 then 1.0
    else g.body[e].freq as real / Sum(OutEdges(g.edges, e.src), FreqIn(g.body)) as real
  }

  /** The edge made for a narrow entrance stands for that one entrance. */
  lemma EntranceOfOne(g0: GraphState, sub: Net, vn: nat, e: Edge)
    requires Valid(g0) && Narrow(g0.edges, sub, vn) && WellFormed(sub)
    requires e in g0.edges && e !in sub.edges && e.snk in sub.nodes
    ensures e.src in g0.nodes
    ensures EntranceBody(g0, sub.nodes, vn, e.src)
         == Body(g0.body[e].freq, Share(g0, e), Virtual(Edge(Rep(sub.nodes, vn, e.src), vn), {g0.body[e].what}))
  {
    assert g0.succs[e.src] == OutEdges(g0.edges, e.src);
    SingleEntry(g0, sub, vn, e);
    SumOne(FreqIn(g0.body), e);
    assert (set f | f in Into(g0, sub.nodes, e.src) :: g0.body[f].what) == {g0.body[e].what};
  }

  lemma BackSource(g0: GraphState, sub: Net, vn: nat, e: Edge, u: nat, b: Body)
    requires Valid(g0) && Narrow(g0.edges, sub, vn) && FromEntrance(g0, sub, vn, u, b)
    requires e in g0.edges && e !in sub.edges && e.src in sub.nodes && e.snk in sub.nodes
    ensures u == e.src && b == EntranceBody(g0, sub.nodes, vn, e.src)
  {
    var o :| o in g0.edges && o.src == u && o.snk in sub.nodes && o !in sub.edges;
    SameKeySameEdge(g0.edges, sub, vn, e, o);
  }

  lemma SelfObject(g0: GraphState, h: GraphState, sub: Net, vn: nat) returns (u: nat, b: Body)
    requires Virtualized(g0, h, sub, vn) && Edge(vn, vn) in h.edges
    ensures FromEntrance(g0, sub, vn, u, b) && h.body[Edge(vn, vn)] == ExitBody(b, Edge(vn, vn))
  {
    u, b :| FromEntrance(g0, sub, vn, u, b) && h.body[Edge(vn, vn)] == ExitBody(b, Edge(vn, vn));
  }

  lemma ExitObject(g0: GraphState, h: GraphState, sub: Net, vn: nat, q: Edge) returns (x: Edge)
    requires Virtualized(g0, h, sub, vn) && q in h.edges && q.src == vn && q.snk != vn
    ensures FromExit(g0, sub, vn, x, q.snk, h.body[q])
  {
    x :| FromExit(g0, sub, vn, x, q.snk, h.body[q]);
  }

  /** An edge from the subgraph back into it is wrapped twice. */
  lemma MovedBack(g0: GraphState, h: GraphState, sub: Net, vn: nat, e: Edge)
    requires NarrowStep(g0, h, sub, vn) && e in g0.edges && e !in sub.edges
    requires e.src in sub.nodes && e.snk in sub.nodes
    ensures var q, b := Edge(vn, vn), g0.body[e];
      && q in h.edges
      && h.body[q] == Body(b.freq, ExitWeight(Body(b.freq, Share(g0, e), b.what)), Virtual(q, {Virtual(q, {b.what})}))
  {
    assert RepEdge(sub.nodes, vn, e) in h.edges;
    EntranceOfOne(g0, sub, vn, e);
    var u, b := SelfObject(g0, h, sub, vn);
    BackSource(g0, sub, vn, e, u, b);
  }

  lemma MovedExit(g0: GraphState, h: GraphState, sub: Net, vn: nat, e: Edge)
    requires NarrowStep(g0, h, sub, vn) && e in g0.edges && e !in sub.edges
    requires e.src in sub.nodes && e.snk !in sub.nodes
    ensures var q, b := Edge(vn, e.snk), g0.body[e];
      q in h.edges && h.body[q] == Body(b.freq, ExitWeight(b), Virtual(q, {b.what}))
  {
    FreshId(g0);
    assert RepEdge(sub.nodes, vn, e) in h.edges;
    var x := ExitObject(g0, h, sub, vn, Edge(vn, e.snk));
    SameKeySameEdge(g0.edges, sub, vn, e, x);
  }

  lemma MovedEntrance(g0: GraphState, h: GraphState, sub: Net, vn: nat, e: Edge)
    requires NarrowStep(g0, h, sub, vn) && e in g0.edges && e !in sub.edges
    requires e.src !in sub.nodes && e.snk in sub.nodes
    ensures var q, b := Edge(e.src, vn), g0.body[e];
      q in h.edges && h.body[q] == Body(b.freq, Share(g0, e), Virtual(q, {b.what}))
  {
    FreshId(g0);
    assert RepEdge(sub.nodes, vn, e) in h.edges;
    EntranceOfOne(g0, sub, vn, e);
  }

  /** The object of a moved edge. */
  lemma MovedBody(g0: GraphState, h: GraphState, sub: Net, vn: nat, e: Edge)
    requires NarrowStep(g0, h, sub, vn) && e in g0.edges && e !in sub.edges
    ensures var q, b, b' := RepEdge(sub.nodes, vn, e), g0.body[e], h.body[RepEdge(sub.nodes, vn, e)];
      && q in h.edges
      && (e.src !in sub.nodes && e.snk !in sub.nodes ==> q == e && b' == b)
      && (e.src !in sub.nodes && e.snk in sub.nodes ==> b' == Body(b.freq, Share(g0, e), Virtual(q, {b.what})))
      && (e.src in sub.nodes && e.snk !in sub.nodes ==> b' == Body(b.freq, ExitWeight(b), Virtual(q, {b.what})))
      && (e.src in sub.nodes && e.snk in sub.nodes ==>
            b' == Body(b.freq, ExitWeight(Body(b.freq, Share(g0, e), b.what)), Virtual(q, {Virtual(q, {b.what})})))
  {
    FreshId(g0);
    if e.src in sub.nodes && e.snk in sub.nodes {
      MovedBack(g0, h, sub, vn, e);
    } else if e.src in sub.nodes {
      MovedExit(g0, h, sub, vn, e);
    } else if e.snk in sub.nodes {
      MovedEntrance(g0, h, sub, vn, e);
    } else {
      assert RepEdge(sub.nodes, vn, e) in h.edges;
    }
  }

  /** A narrow contraction moves every edge outside the subgraph without changing its frequency. */
  lemma MovedFrequency(g0: GraphState, h: GraphState, sub: Net, vn: nat, e: Edge)
    requires NarrowStep(g0, h, sub, vn) && e in g0.edges && e !in sub.edges
    ensures RepEdge(sub.nodes, vn, e) in h.edges && h.body[RepEdge(sub.nodes, vn, e)].freq == g0.body[e].freq
  {
    MovedBody(g0, h, sub, vn, e);
  }

  lemma SumMoved(S: set<Edge>, N: set<nat>, vn: nat, f: Edge -> nat, f': Edge -> nat)
    requires forall e {:trigger e in S} :: e in S ==> f'(RepEdge(N, vn, e)) == f(e)
    requires MovesApart(S, N, vn)
    ensures Sum(set e | e in S :: RepEdge(N, vn, e), f') == Sum(S, f)
  {
    var T := set e | e in S :: RepEdge(N, vn, e);
    if S != {} {
      var x :| x in S;
      TakeMoved(S, N, vn, x);
      SumTake(S, f, x);
      SumTake(T, f', RepEdge(N, vn, x));
      SumMoved(S - {x}, N, vn, f, f');
    }
  }

  lemma TakeMoved(S: set<Edge>, N: set<nat>, vn: nat, x: Edge)
    requires x in S && MovesApart(S, N, vn)
    ensures (set e | e in S :: RepEdge(N, vn, e)) - {RepEdge(N, vn, x)} == set e | e in S - {x} :: RepEdge(N, vn, e)
  {
  }

  /** Frequency into and out of the region: the virtual node is entered as often as the entry was
      from outside the region's edges, and left as often as the exit was left. */
  lemma FlowPreserved(g0: GraphState, h: GraphState, sub: Net, s: nat, t: nat, vn: nat)
    requires RegionStep(g0, h, sub, s, t, vn)
    ensures Sum(OutEdges(h.edges, vn), FreqIn(h.body)) == Sum(OutEdges(g0.edges, t), FreqIn(g0.body))
    ensures Sum(InEdges(h.edges, vn), FreqIn(h.body)) == Sum(InEdges(g0.edges, s), FreqIn(g0.body))
    ensures forall n :: n in h.nodes && n != vn ==>
              && Sum(OutEdges(h.edges, n), FreqIn(h.body)) == Sum(OutEdges(g0.edges, n), FreqIn(g0.body))
              && Sum(InEdges(h.edges, n), FreqIn(h.body)) == Sum(InEdges(g0.edges, n), FreqIn(g0.body))
  {
    OutMoved(g0, h, sub, s, t, vn, vn);
    InMoved(g0, h, sub, s, t, vn, vn);
    forall n | n in h.nodes && n != vn
      ensures Sum(OutEdges(h.edges, n), FreqIn(h.body)) == Sum(OutEdges(g0.edges, n), FreqIn(g0.body))
      ensures Sum(InEdges(h.edges, n), FreqIn(h.body)) == Sum(InEdges(g0.edges, n), FreqIn(g0.body))
    {
      OutMoved(g0, h, sub, s, t, vn, n);
      InMoved(g0, h, sub, s, t, vn, n);
    }
  }

  /** The frequency of edges outside the subgraph is the frequency of their images. */
  lemma SumOutside(g0: GraphState, h: GraphState, sub: Net, vn: nat, S: set<Edge>)
    requires NarrowStep(g0, h, sub, vn) && S <= g0.edges && S !! sub.edges
    ensures Sum(set e | e in S :: RepEdge(sub.nodes, vn, e), FreqIn(h.body)) == Sum(S, FreqIn(g0.body))
  {
    forall e | e in S ensures FreqIn(h.body)(RepEdge(sub.nodes, vn, e)) == FreqIn(g0.body)(e) {
      MovedFrequency(g0, h, sub, vn, e);
    }
    forall e, d | e in S && d in S && RepEdge(sub.nodes, vn, e) == RepEdge(sub.nodes, vn, d) ensures e == d {
      SameKeySameEdge(g0.edges, sub, vn, e, d);
    }
    SumMoved(S, sub.nodes, vn, FreqIn(g0.body), FreqIn(h.body));
  }

  lemma LeavesOutside(g0: GraphState, h: GraphState, sub: Net, s: nat, t: nat, vn: nat, n: nat)
    requires RegionStep(g0, h, sub, s, t, vn) && n in h.nodes
    ensures OutEdges(g0.edges, EntryOf(vn, t, n)) !! sub.edges
  {
    FreshId(g0);
    forall e | e in OutEdges(g0.edges, EntryOf(vn, t, n)) ensures e !in sub.edges {
      if e in sub.edges {
        ExitIsLast(g0.edges, sub, s, t, e);
      }
    }
  }

  /** The edges that leave a node after the contraction are the moved ones. */
  lemma OutImages(E: set<Edge>, sub: Net, s: nat, t: nat, vn: nat, n: nat)
    requires Region(E, sub, s, t) && Fresh(E, vn) && n !in sub.nodes
    requires OutEdges(E, EntryOf(vn, t, n)) !! sub.edges
    ensures OutEdges(Quotient(E, sub, vn), n) == set e | e in OutEdges(E, EntryOf(vn, t, n)) ::
      RepEdge(sub.nodes, vn, e)
  {
    var S := OutEdges(E, EntryOf(vn, t, n));
    forall q ensures q in OutEdges(Quotient(E, sub, vn), n) <==> exists e :: e in S && RepEdge(sub.nodes, vn, e) == q {
      if q in OutEdges(Quotient(E, sub, vn), n) {
        var e := QuotientEdge(E, sub, vn, q);
        BoundaryEdge(E, sub, s, t, e);
        assert e in S;
      }
    }
  }

  lemma OutMoved(g0: GraphState, h: GraphState, sub: Net, s: nat, t: nat, vn: nat, n: nat)
    requires RegionStep(g0, h, sub, s, t, vn) && n in h.nodes
    ensures Sum(OutEdges(h.edges, n), FreqIn(h.body)) == Sum(OutEdges(g0.edges, EntryOf(vn, t, n)), FreqIn(g0.body))
  {
    var S := OutEdges(g0.edges, EntryOf(vn, t, n));
    FreshId(g0);
    LeavesOutside(g0, h, sub, s, t, vn, n);
    OutImages(g0.edges, sub, s, t, vn, n);
    RegionStepIsNarrow(g0, h, sub, s, t, vn);
    SumOutside(g0, h, sub, vn, S);
  }

  lemma EntersOutside(g0: GraphState, h: GraphState, sub: Net, s: nat, t: nat, vn: nat, n: nat)
    requires RegionStep(g0, h, sub, s, t, vn) && n in h.nodes
    ensures InEdges(g0.edges, EntryOf(vn, s, n)) !! sub.edges
  {
    FreshId(g0);
    forall e | e in InEdges(g0.edges, EntryOf(vn, s, n)) ensures e !in sub.edges {
      if e in sub.edges {
        EntryIsFirst(g0.edges, sub, s, t, e);
      }
    }
  }

  /** The edges that enter a node after the contraction are the moved ones. */
  lemma InImages(E: set<Edge>, sub: Net, s: nat, t: nat, vn: nat, n: nat)
    requires Region(E, sub, s, t) && Fresh(E, vn) && n !in sub.nodes
    requires InEdges(E, EntryOf(vn, s, n)) !! sub.edges
    ensures InEdges(Quotient(E, sub, vn), n) == set e | e in InEdges(E, EntryOf(vn, s, n)) :: RepEdge(sub.nodes, vn, e)
  {
    var S := InEdges(E, EntryOf(vn, s, n));
    forall q ensures q in InEdges(Quotient(E, sub, vn), n) <==> exists e :: e in S && RepEdge(sub.nodes, vn, e) == q {
      if q in InEdges(Quotient(E, sub, vn), n) {
        var e := QuotientEdge(E, sub, vn, q);
        BoundaryEdge(E, sub, s, t, e);
        assert e in S;
      }
    }
  }

  lemma InMoved(g0: GraphState, h: GraphState, sub: Net, s: nat, t: nat, vn: nat, n: nat)
    requires RegionStep(g0, h, sub, s, t, vn) && n in h.nodes
    ensures Sum(InEdges(h.edges, n), FreqIn(h.body)) == Sum(InEdges(g0.edges, EntryOf(vn, s, n)), FreqIn(g0.body))
  {
    var S := InEdges(g0.edges, EntryOf(vn, s, n));
    FreshId(g0);
    EntersOutside(g0, h, sub, s, t, vn, n);
    InImages(g0.edges, sub, s, t, vn, n);
    RegionStepIsNarrow(g0, h, sub, s, t, vn);
    SumOutside(g0, h, sub, vn, S);
  }

  // ----- probabilities -----

  /** Every edge carries its share of its source's outgoing frequency. */
  ghost predicate Normal(g: GraphState) {
    && Valid(g)
    && forall e {:trigger e in g.edges} :: e in g.edges ==> g.body[e].weight == Share(g, e)
  }

  lemma PositiveTotal(g: GraphState, e: Edge)
    requires Valid(g) && e in g.edges
    ensures Sum(OutEdges(g.edges, e.src), FreqIn(g.body)) >= g.body[e].freq > 0
  {
    SumMember(OutEdges(g.edges, e.src), FreqIn(g.body), e);
  }

  /** A weight that is a share is recovered by the division that re-derives it. */
  lemma ExitWeightIsShare(b: Body, T: nat)
    requires 0 < b.freq <= T && b.weight == b.freq as real / T as real
    ensures ExitWeight(b) == b.weight
  {
    ShareBounds(b.freq, T);
    assert b.weight * T as real == b.freq as real;
    assert b.freq as real / b.weight == T as real;
  }

  /** Contracting a region keeps every edge's probability the share of its frequency. */
  lemma NormalStep(g0: GraphState, h: GraphState, sub: Net, s: nat, t: nat, vn: nat)
    requires RegionStep(g0, h, sub, s, t, vn) && Normal(g0)
    ensures Normal(h)
  {
    forall q | q in h.edges ensures h.body[q].weight == Share(h, q) {
      var e := QuotientEdge(g0.edges, sub, vn, q);
      NormalMoved(g0, h, sub, s, t, vn, e);
    }
  }

  lemma NormalMoved(g0: GraphState, h: GraphState, sub: Net, s: nat, t: nat, vn: nat, e: Edge)
    requires RegionStep(g0, h, sub, s, t, vn) && Normal(g0) && e in g0.edges && e !in sub.edges
    ensures var q := RepEdge(sub.nodes, vn, e); q in h.edges && h.body[q].weight == Share(h, q) == Share(g0, e)
  {
    var q, T := RepEdge(sub.nodes, vn, e), Sum(OutEdges(g0.edges, e.src), FreqIn(g0.body));
    FreshId(g0);
    RegionStepIsNarrow(g0, h, sub, s, t, vn);
    MovedBody(g0, h, sub, vn, e);
    BoundaryEdge(g0.edges, sub, s, t, e);
    PositiveTotal(g0, e);
    assert EntryOf(vn, t, q.src) == e.src;
    OutMoved(g0, h, sub, s, t, vn, q.src);
    assert Share(h, q) == Share(g0, e);
    ExitWeightIsShare(g0.body[e], T);
    ExitWeightIsShare(Body(g0.body[e].freq, Share(g0, e), g0.body[e].what), T);
  }

  ghost function WeightSum(S: set<Edge>, body: map<Edge, Body>): real
    requires S <= body.Keys
  {
    if S == {} then 0.0
    else
      var x :| x in S;
      body[x].weight + WeightSum(S - {x}, body)
  }

  lemma WeightOne(q: Edge, body: map<Edge, Body>)
    requires q in body
    ensures WeightSum({q}, body) == body[q].weight
  {
    assert {q} - {q} == {};
  }

  lemma ShareAdds(a: nat, b: nat, T: nat)
    requires T > 0
    ensures a as real / T as real + b as real / T as real == (a + b) as real / T as real
  {
  }

  lemma ShareWhole(T: nat)
    requires T > 0
    ensures T as real / T as real == 1.0
  {
  }

  lemma WeightsScaleTake(S: set<Edge>, body: map<Edge, Body>, T: nat, x: Edge)
    requires S <= body.Keys && T > 0 && x in S && body[x].weight == body[x].freq as real / T as real
    ensures body[x].weight + Sum(S - {x}, FreqIn(body)) as real / T as real == Sum(S, FreqIn(body)) as real / T as real
  {
    SumTake(S, FreqIn(body), x);
    ShareAdds(body[x].freq, Sum(S - {x}, FreqIn(body)), T);
  }

  lemma WeightsScale(S: set<Edge>, body: map<Edge, Body>, T: nat)
    requires S <= body.Keys && T > 0
    requires forall e {:trigger e in S} :: e in S ==> body[e].weight == body[e].freq as real / T as real
    ensures WeightSum(S, body) == Sum(S, FreqIn(body)) as real / T as real
  {
    if S != {} {
      var x :| x in S && WeightSum(S, body) == body[x].weight + WeightSum(S - {x}, body);
      WeightsScale(S - {x}, body, T);
      WeightsScaleTake(S, body, T, x);
    }
  }

  /** The outgoing probabilities of every node with a successor sum to one. */
  lemma OutgoingSumToOne(g: GraphState, n: nat)
    requires Normal(g) && n in g.nodes && g.succs[n] != {}
    ensures WeightSum(g.succs[n], g.body) == 1.0
  {
    var S := OutEdges(g.edges, n);
    assert g.succs[n] == S;
    var e :| e in S;
    PositiveTotal(g, e);
    var T := Sum(S, FreqIn(g.body));
    forall d | d in S ensures g.body[d].weight == g.body[d].freq as real / T as real {
      assert d in g.edges;
      PositiveTotal(g, d);
    }
    WeightsScale(S, g.body, T);
    ShareWhole(T);
  }

  // ----- the profile edges behind an edge -----

  /** All profile edges an edge object stands for. */
  function Flatten(o: EdgeObject): set<Edge> {
    match o
    case Profiled(key) => {key}
    case Virtual(_, under) => set u, k | u in under && k in Flatten(u) :: k
  }

  lemma FlattenWrap(key: Edge, o: EdgeObject)
    ensures Flatten(Virtual(key, {o})) == Flatten(o)
  {
    forall k ensures k in Flatten(Virtual(key, {o})) <==> k in Flatten(o) {
      assert o in {o};
    }
  }

  /** The edge between two current nodes stands for exactly the profile edges between their leaves. */
  ghost predicate Traced(origin: set<Edge>, home: map<nat, nat>, g: GraphState)
    requires g.body.Keys == g.edges
  {
    && (forall o {:trigger o in origin} :: o in origin ==> o.src in home && o.snk in home)
    && (forall e {:trigger e in g.edges} :: e in g.edges && e.src != e.snk ==>
          Flatten(g.body[e].what) != {} &&
          forall o {:trigger o in Flatten(g.body[e].what)} :: o in Flatten(g.body[e].what) ==>
            o in origin && home[o.src] == e.src && home[o.snk] == e.snk)
    && (forall o {:trigger o in origin} :: o in origin && home[o.src] != home[o.snk] ==>
          && Edge(home[o.src], home[o.snk]) in g.edges
          && o in Flatten(g.body[Edge(home[o.src], home[o.snk])].what))
  }

  lemma TracedEdge(origin: set<Edge>, home: map<nat, nat>, g0: GraphState, h: GraphState, sub: Net, vn: nat, q: Edge)
    requires NarrowStep(g0, h, sub, vn) && Traced(origin, home, g0) && q in h.edges && q.src != q.snk
    ensures Flatten(h.body[q].what) != {}
    ensures forall o {:trigger o in Flatten(h.body[q].what)} :: o in Flatten(h.body[q].what) ==>
      o in origin && Rep(sub.nodes, vn, home[o.src]) == q.src && Rep(sub.nodes, vn, home[o.snk]) == q.snk
  {
    var e := QuotientEdge(g0.edges, sub, vn, q);
    MovedBody(g0, h, sub, vn, e);
    FlattenWrap(q, g0.body[e].what);
    assert e.src != e.snk;
  }

  lemma TracedOrigin(origin: set<Edge>, home: map<nat, nat>, g0: GraphState, h: GraphState, sub: Net, vn: nat, o: Edge)
    requires NarrowStep(g0, h, sub, vn) && Traced(origin, home, g0) && o in origin
    requires Rep(sub.nodes, vn, home[o.src]) != Rep(sub.nodes, vn, home[o.snk])
    ensures var q := Edge(Rep(sub.nodes, vn, home[o.src]), Rep(sub.nodes, vn, home[o.snk]));
      q in h.edges && o in Flatten(h.body[q].what)
  {
    var e := Edge(home[o.src], home[o.snk]);
    assert e in g0.edges && e !in sub.edges;
    MovedBody(g0, h, sub, vn, e);
    FlattenWrap(RepEdge(sub.nodes, vn, e), g0.body[e].what);
  }

  /** A narrow contraction keeps every edge traced. */
  lemma TracedStep(origin: set<Edge>, home: map<nat, nat>, g0: GraphState, h: GraphState, sub: Net, vn: nat)
    requires NarrowStep(g0, h, sub, vn) && Traced(origin, home, g0)
    ensures Traced(origin, Move(home, sub.nodes, vn), h)
  {
    forall q | q in h.edges && q.src != q.snk
      ensures Flatten(h.body[q].what) != {}
      ensures forall o {:trigger o in Flatten(h.body[q].what)} :: o in Flatten(h.body[q].what) ==>
        o in origin && Rep(sub.nodes, vn, home[o.src]) == q.src && Rep(sub.nodes, vn, home[o.snk]) == q.snk
    {
      TracedEdge(origin, home, g0, h, sub, vn, q);
    }
    forall o | o in origin && Rep(sub.nodes, vn, home[o.src]) != Rep(sub.nodes, vn, home[o.snk])
      ensures var q := Edge(Rep(sub.nodes, vn, home[o.src]), Rep(sub.nodes, vn, home[o.snk]));
        q in h.edges && o in Flatten(h.body[q].what)
    {
      TracedOrigin(origin, home, g0, h, sub, vn, o);
    }
  }

  /** Some virtual edge below covers nothing. */
  ghost predicate Hollow(o: EdgeObject) {
    match o
    case Profiled(_) => false
    case Virtual(_, under) => under == {} || exists u :: u in under && Hollow(u)
  }

  /** No edge object covers nothing. */
  ghost predicate Solid(g: GraphState) {
    g.body.Keys == g.edges && forall e {:trigger e in g.edges} :: e in g.edges ==> !Hollow(g.body[e].what)
  }

  lemma WrapIsSolid(key: Edge, o: EdgeObject)
    requires !Hollow(o)
    ensures !Hollow(Virtual(key, {o}))
  {
    assert o in {o};
  }

  lemma EntranceIsSolid(g: GraphState, N: set<nat>, vn: nat, u: nat)
    requires Valid(g) && Solid(g) && u in g.nodes && Into(g, N, u) != {}
    ensures !Hollow(EntranceBody(g, N, vn, u).what)
  {
    var under := set e | e in Into(g, N, u) :: g.body[e].what;
    var e :| e in Into(g, N, u);
    assert g.body[e].what in under;
    forall o | o in under ensures !Hollow(o) {
      var d :| d in Into(g, N, u) && g.body[d].what == o;
      assert d in g.edges;
    }
  }

  lemma SolidEntrance(g0: GraphState, h: GraphState, sub: Net, vn: nat, q: Edge)
    requires Contractible(g0, sub, vn) && Virtualized(g0, h, sub, vn) && Solid(g0)
    requires q in h.edges && q.src != vn && q.snk == vn
    ensures !Hollow(h.body[q].what)
  {
    FreshId(g0);
    var e := QuotientEdge(g0.edges, sub, vn, q);
    assert e in Into(g0, sub.nodes, q.src);
    EntranceIsSolid(g0, sub.nodes, vn, q.src);
  }

  lemma SolidExit(g0: GraphState, h: GraphState, sub: Net, vn: nat, q: Edge)
    requires Contractible(g0, sub, vn) && Virtualized(g0, h, sub, vn) && Solid(g0)
    requires q in h.edges && q.src == vn && q.snk != vn
    ensures !Hollow(h.body[q].what)
  {
    var x := ExitObject(g0, h, sub, vn, q);
    WrapIsSolid(q, g0.body[x].what);
  }

  lemma SolidSelf(g0: GraphState, h: GraphState, sub: Net, vn: nat)
    requires Contractible(g0, sub, vn) && Virtualized(g0, h, sub, vn) && Solid(g0) && Edge(vn, vn) in h.edges
    ensures !Hollow(h.body[Edge(vn, vn)].what)
  {
    var u, b := SelfObject(g0, h, sub, vn);
    var e :| e in g0.edges && e.src == u && e.snk in sub.nodes && e !in sub.edges;
    assert e in Into(g0, sub.nodes, u);
    EntranceIsSolid(g0, sub.nodes, vn, u);
    WrapIsSolid(Edge(vn, vn), b.what);
  }

  /** Every contraction keeps every edge object solid. */
  lemma SolidStep(g0: GraphState, h: GraphState, sub: Net, vn: nat)
    requires Contractible(g0, sub, vn) && Virtualized(g0, h, sub, vn) && Solid(g0)
    ensures Solid(h)
  {
    forall q | q in h.edges ensures !Hollow(h.body[q].what) {
      if q.src != vn && q.snk == vn {
        SolidEntrance(g0, h, sub, vn, q);
      } else if q.src == vn && q.snk != vn {
        SolidExit(g0, h, sub, vn, q);
      } else if q.src == vn {
        assert q == Edge(vn, vn);
        SolidSelf(g0, h, sub, vn);
      }
    }
  }

  // ----- several entrances from one node -----

  /** The edges that lead from a node into the subgraph. */
  function LeadingIn(E: set<Edge>, N: set<nat>, u: nat): set<Edge> {
    set e | e in E && e.src == u && e.snk in N
  }

  /** All profile edges that edges stand for. */
  function Behind(S: set<Edge>, body: map<Edge, Body>): set<Edge>
    requires S <= body.Keys
  {
    set e, o | e in S && o in Flatten(body[e].what) :: o
  }

  lemma LeadingInIs(g0: GraphState, sub: Net, u: nat)
    requires Valid(g0) && u in g0.nodes
    ensures Into(g0, sub.nodes, u) == LeadingIn(g0.edges, sub.nodes, u) && g0.succs[u] == OutEdges(g0.edges, u)
  {
  }

  /** However many edges a node outside has into the subgraph, they become one: it has their frequencies
      taken together, that share of all the node passes on, and stands for all they stood for. */
  lemma EntrancesJoin(g0: GraphState, h: GraphState, sub: Net, vn: nat, u: nat)
    requires Contractible(g0, sub, vn) && Virtualized(g0, h, sub, vn)
    requires u in g0.nodes && u !in sub.nodes && LeadingIn(g0.edges, sub.nodes, u) != {}
    ensures Edge(u, vn) in h.edges
    ensures var S, b, f := LeadingIn(g0.edges, sub.nodes, u), h.body[Edge(u, vn)], FreqIn(g0.body);
      && b.freq == Sum(S, f) && 0 < Sum(S, f) <= Sum(OutEdges(g0.edges, u), f)
      && b.weight == Sum(S, f) as real / Sum(OutEdges(g0.edges, u), f) as real
      && Flatten(b.what) == Behind(S, g0.body)
  {
    FreshId(g0);
    LeadingInIs(g0, sub, u);
    var S, f := LeadingIn(g0.edges, sub.nodes, u), FreqIn(g0.body);
    var e :| e in S;
    assert RepEdge(sub.nodes, vn, e) == Edge(u, vn) && e !in sub.edges;
    assert Edge(u, vn) in h.edges;
    assert h.body[Edge(u, vn)] == EntranceBody(g0, sub.nodes, vn, u);
    assert Healthy(g0.body[e]);
    SumMember(S, f, e);
    SumSubset(S, OutEdges(g0.edges, u), f);
    JoinFlattens(S, g0.body, Edge(u, vn));
  }

  lemma JoinFlattens(S: set<Edge>, body: map<Edge, Body>, key: Edge)
    requires S <= body.Keys
    ensures Flatten(Virtual(key, set e | e in S :: body[e].what)) == Behind(S, body)
  {
    var under := set e | e in S :: body[e].what;
    forall o ensures o in Flatten(Virtual(key, under)) <==> o in Behind(S, body) {
      if o in Flatten(Virtual(key, under)) {
        var b :| b in under && o in Flatten(b);
        var e :| e in S && body[e].what == b;
      }
      if o in Behind(S, body) {
        var e :| e in S && o in Flatten(body[e].what);
        assert body[e].what in under;
      }
    }
  }

  /** Where probabilities are shares of frequencies, the new one is the sum of theirs. */
  lemma EntranceWeightsJoin(g0: GraphState, h: GraphState, sub: Net, vn: nat, u: nat)
    requires Contractible(g0, sub, vn) && Virtualized(g0, h, sub, vn) && Normal(g0)
    requires u in g0.nodes && u !in sub.nodes && LeadingIn(g0.edges, sub.nodes, u) != {}
    ensures Edge(u, vn) in h.edges
    ensures h.body[Edge(u, vn)].weight == WeightSum(LeadingIn(g0.edges, sub.nodes, u), g0.body)
  {
    EntrancesJoin(g0, h, sub, vn, u);
    var S, T := LeadingIn(g0.edges, sub.nodes, u), Sum(OutEdges(g0.edges, u), FreqIn(g0.body));
    forall e | e in S ensures g0.body[e].weight == g0.body[e].freq as real / T as real {
      PositiveTotal(g0, e);
    }
    WeightsScale(S, g0.body, T);
  }

  // ----- several exits -----

  function ExitsTo(g: GraphState, sub: Net, y: nat): set<Edge> {
    set x | x in g.edges && x.src in sub.nodes && x.snk == y
  }

  /** The edge to a sink is made for one of the exits to it. */
  lemma OneExitKept(g0: GraphState, h: GraphState, sub: Net, vn: nat, y: nat) returns (x: Edge)
    requires Contractible(g0, sub, vn) && Virtualized(g0, h, sub, vn)
    requires y !in sub.nodes && ExitsTo(g0, sub, y) != {}
    ensures Edge(vn, y) in h.edges && x in ExitsTo(g0, sub, y) && h.body[Edge(vn, y)].freq == g0.body[x].freq
  {
    FreshId(g0);
    var x0 :| x0 in ExitsTo(g0, sub, y);
    assert y in g0.nodes;
    assert RepEdge(sub.nodes, vn, x0) == Edge(vn, y) && x0 !in sub.edges;
    assert Edge(vn, y) in h.edges;
    x := ExitObject(g0, h, sub, vn, Edge(vn, y));
  }

  /** Exits are wrapped one at a time under the key of the virtual node and their sink, and only
      the first one kept: the frequency to a sink survives exactly when one exit leads there. */
  lemma ExitFlowSurvives(g0: GraphState, h: GraphState, sub: Net, vn: nat, y: nat)
    requires Contractible(g0, sub, vn) && Virtualized(g0, h, sub, vn)
    requires y !in sub.nodes && ExitsTo(g0, sub, y) != {}
    ensures Edge(vn, y) in h.edges
    ensures h.body[Edge(vn, y)].freq == Sum(ExitsTo(g0, sub, y), FreqIn(g0.body)) <==> |ExitsTo(g0, sub, y)| == 1
  {
    var x := OneExitKept(g0, h, sub, vn, y);
    ExitsArePositive(g0, sub, y);
    OneOfMany(ExitsTo(g0, sub, y), FreqIn(g0.body), x);
  }

  lemma ExitsArePositive(g: GraphState, sub: Net, y: nat)
    requires Valid(g)
    ensures forall z {:trigger z in ExitsTo(g, sub, y)} :: z in ExitsTo(g, sub, y) ==> FreqIn(g.body)(z) > 0
  {
    forall z | z in ExitsTo(g, sub, y) ensures FreqIn(g.body)(z) > 0 {
      assert Healthy(g.body[z]);
    }
  }

  lemma OneOfMany(X: set<Edge>, f: Edge -> nat, x: Edge)
    requires x in X && forall z {:trigger z in X} :: z in X ==> f(z) > 0
    ensures f(x) == Sum(X, f) <==> |X| == 1
  {
    SumTake(X, f, x);
    assert X == (X - {x}) + {x} && |X| == |X - {x}| + 1;
    if X - {x} != {} {
      var z :| z in X - {x};
      SumMember(X - {x}, f, z);
    }
  }

  // ----- total frequency -----

  ghost function TotalFreq(g: GraphState): nat {
    Sum(g.edges, FreqIn(g.body))
  }

  function Fiber(S: set<Edge>, N: set<nat>, vn: nat, q: Edge): set<Edge> {
    set e | e in S && RepEdge(N, vn, e) == q
  }

  lemma OtherFiber(S: set<Edge>, N: set<nat>, vn: nat, p: Edge, q: Edge)
    requires p != q
    ensures Fiber(S - Fiber(S, N, vn, q), N, vn, p) == Fiber(S, N, vn, p)
  {
  }

  ghost predicate FibersBound(T: set<Edge>, S: set<Edge>, N: set<nat>, vn: nat, f': Edge -> nat, f: Edge -> nat) {
    forall q {:trigger q in T} :: q in T ==> f'(q) <= Sum(Fiber(S, N, vn, q), f)
  }

  lemma SplitFiber(T: set<Edge>, S: set<Edge>, N: set<nat>, vn: nat, f': Edge -> nat, f: Edge -> nat, q: Edge)
    requires q in T && FibersBound(T, S, N, vn, f', f)
    ensures FibersBound(T - {q}, S - Fiber(S, N, vn, q), N, vn, f', f)
  {
    forall p | p in T - {q} ensures f'(p) <= Sum(Fiber(S - Fiber(S, N, vn, q), N, vn, p), f) {
      OtherFiber(S, N, vn, p, q);
    }
  }

  lemma SumMinus(S: set<Edge>, F: set<Edge>, f: Edge -> nat)
    requires F <= S
    ensures Sum(S, f) == Sum(F, f) + Sum(S - F, f)
  {
    assert S == F + (S - F);
    SumUnion(F, S - F, f);
  }

  lemma SumOfFibers(T: set<Edge>, S: set<Edge>, N: set<nat>, vn: nat, f': Edge -> nat, f: Edge -> nat)
    requires FibersBound(T, S, N, vn, f', f)
    ensures Sum(T, f') <= Sum(S, f)
  {
    if T != {} {
      var q :| q in T;
      SplitFiber(T, S, N, vn, f', f, q);
      SumOfFibers(T - {q}, S - Fiber(S, N, vn, q), N, vn, f', f);
      SumTake(T, f', q);
      SumMinus(S, Fiber(S, N, vn, q), f);
    }
  }

  /** All edges of a node into the subgraph end up under one key. */
  lemma IntoFiber(g0: GraphState, sub: Net, vn: nat, u: nat)
    requires Valid(g0) && u in g0.nodes
    ensures Sum(Into(g0, sub.nodes, u), FreqIn(g0.body)) <= Sum(Fiber(g0.edges, sub.nodes, vn, Edge(Rep(sub.nodes, vn,
          u), vn)), FreqIn(g0.body))
  {
    var F := Fiber(g0.edges, sub.nodes, vn, Edge(Rep(sub.nodes, vn, u), vn));
    forall e | e in Into(g0, sub.nodes, u) ensures e in F {
      assert e in g0.edges;
    }
    SumSubset(Into(g0, sub.nodes, u), F, FreqIn(g0.body));
  }

  lemma InFiber(g0: GraphState, sub: Net, vn: nat, q: Edge, e: Edge)
    requires Valid(g0) && e in g0.edges && RepEdge(sub.nodes, vn, e) == q
    ensures g0.body[e].freq <= Sum(Fiber(g0.edges, sub.nodes, vn, q), FreqIn(g0.body))
  {
    SumMember(Fiber(g0.edges, sub.nodes, vn, q), FreqIn(g0.body), e);
  }

  lemma FiberBounds(g0: GraphState, h: GraphState, sub: Net, vn: nat, q: Edge)
    requires Contractible(g0, sub, vn) && Virtualized(g0, h, sub, vn) && q in h.edges
    ensures h.body[q].freq <= Sum(Fiber(g0.edges, sub.nodes, vn, q), FreqIn(g0.body))
  {
    FreshId(g0);
    if q.src != vn && q.snk != vn {
      var e := QuotientEdge(g0.edges, sub, vn, q);
      InFiber(g0, sub, vn, q, e);
    } else if q.src != vn {
      IntoFiber(g0, sub, vn, q.src);
    } else if q.snk != vn {
      var x := ExitObject(g0, h, sub, vn, q);
      var e := QuotientEdge(g0.edges, sub, vn, q);
      InFiber(g0, sub, vn, q, x);
    } else {
      assert q == Edge(vn, vn);
      var u, b := SelfObject(g0, h, sub, vn);
      IntoFiber(g0, sub, vn, u);
    }
  }

  /** No contraction, of a region or of anything else, raises the total frequency. */
  lemma TotalDoesNotRise(g0: GraphState, h: GraphState, sub: Net, vn: nat)
    requires Contractible(g0, sub, vn) && Virtualized(g0, h, sub, vn)
    ensures TotalFreq(h) <= TotalFreq(g0)
  {
    forall q | q in h.edges ensures FreqIn(h.body)(q) <= Sum(Fiber(g0.edges, sub.nodes, vn, q), FreqIn(g0.body)) {
      FiberBounds(g0, h, sub, vn, q);
    }
    SumOfFibers(h.edges, g0.edges, sub.nodes, vn, FreqIn(h.body), FreqIn(g0.body));
  }

  // ----- Kirchhoff's current law -----

  predicate OneInOneOut(g: GraphState, n: nat)
    requires n in g.succs && n in g.preds
  {
    |g.preds[n]| == 1 && |g.succs[n]| == 1
  }

  /** In a balanced graph every node with one way in and one way out passes on what it gets. */
  ghost predicate Balanced(g: GraphState) {
    && Valid(g)
    && forall p, s {:trigger p in g.edges, s in g.edges} ::
         p in g.edges && s in g.edges && p.snk == s.src && OneInOneOut(g, s.src) ==> g.body[p].freq == g.body[s].freq
  }

  /** The larger edge is wrapped with the smaller frequency, then the probabilities of all edges
      leaving its source are set again. */
  ghost predicate KCLStep(g: GraphState, h: GraphState, big: Edge, least: nat)
    requires big in g.edges && big in g.body && big.src in g.succs
  {
    && h == g.(body := h.body) && h.body.Keys == g.body.Keys
    && 0 < least < g.body[big].freq
    && h.body[big].freq == least && h.body[big].what == Virtual(big, {g.body[big].what})
    && (forall e {:trigger e in g.body} :: e in g.body && e.src != big.src ==> h.body[e] == g.body[e])
    && (forall e {:trigger e in g.body} :: e in g.body && e.src == big.src && e != big ==>
          h.body[e].freq == g.body[e].freq && h.body[e].what == g.body[e].what)
    && (forall e {:trigger e in g.body} :: e in g.body && e.src == big.src ==>
          h.body[e].weight == h.body[e].freq as real / PositiveOr1(Sum(g.succs[big.src], FreqIn(h.body))) as real)
  }

  function PositiveOr1(n: nat): (r: nat)
    ensures r > 0
  {
    if n == 0 then 1 else n
  }

  lemma KCLValid(g: GraphState, h: GraphState, big: Edge, least: nat)
    requires Valid(g) && big in g.edges && KCLStep(g, h, big, least)
    ensures Valid(h) && TotalFreq(h) < TotalFreq(g)
  {
    var S := g.succs[big.src];
    forall e | e in h.edges ensures Healthy(h.body[e]) {
      assert e in g.edges && Healthy(g.body[e]);
      if e.src == big.src {
        assert e in S;
        SumMember(S, FreqIn(h.body), e);
        ShareBounds(h.body[e].freq, Sum(S, FreqIn(h.body)));
      }
    }
    SumTake(g.edges, FreqIn(g.body), big);
    SumTake(g.edges, FreqIn(h.body), big);
    forall e | e in g.edges - {big} ensures FreqIn(h.body)(e) == FreqIn(g.body)(e) {
      assert e in g.body;
    }
    SumSame(g.edges - {big}, FreqIn(h.body), FreqIn(g.body));
  }

  lemma KCLNormal(g: GraphState, h: GraphState, big: Edge, least: nat)
    requires Normal(g) && big in g.edges && KCLStep(g, h, big, least)
    ensures Normal(h)
  {
    KCLValid(g, h, big, least);
    forall e | e in h.edges ensures h.body[e].weight == Share(h, e) {
      if e.src == big.src {
        KCLHere(g, h, big, least, e);
      } else {
        KCLElsewhere(g, h, big, least, e);
      }
    }
  }

  lemma KCLHere(g: GraphState, h: GraphState, big: Edge, least: nat, e: Edge)
    requires Valid(g) && Valid(h) && big in g.edges && KCLStep(g, h, big, least)
    requires e in g.edges && e.src == big.src
    ensures h.body[e].weight == Share(h, e)
  {
    assert e in g.body && g.succs[big.src] == OutEdges(h.edges, e.src);
    PositiveTotal(h, e);
  }

  lemma KCLElsewhere(g: GraphState, h: GraphState, big: Edge, least: nat, e: Edge)
    requires Valid(g) && Valid(h) && big in g.edges && KCLStep(g, h, big, least)
    requires e in g.edges && e.src != big.src
    ensures h.body[e] == g.body[e] && Share(h, e) == Share(g, e)
  {
    assert e in g.body;
    forall d | d in OutEdges(g.edges, e.src) ensures FreqIn(h.body)(d) == FreqIn(g.body)(d) {
      assert d in g.body;
    }
    SumSame(OutEdges(g.edges, e.src), FreqIn(h.body), FreqIn(g.body));
  }

  lemma KCLSolid(g: GraphState, h: GraphState, big: Edge, least: nat)
    requires Valid(g) && Solid(g) && big in g.edges && KCLStep(g, h, big, least)
    ensures Solid(h)
  {
    WrapIsSolid(big, g.body[big].what);
    forall e | e in h.edges ensures !Hollow(h.body[e].what) {
      assert e in g.body;
    }
  }

  lemma KCLTraced(origin: set<Edge>, home: map<nat, nat>, g: GraphState, h: GraphState, big: Edge, least: nat)
    requires Valid(g) && Traced(origin, home, g) && big in g.edges && KCLStep(g, h, big, least)
    ensures h.body.Keys == h.edges && Traced(origin, home, h)
  {
    FlattenWrap(big, g.body[big].what);
    forall e | e in g.edges ensures Flatten(h.body[e].what) == Flatten(g.body[e].what) {
      assert e in g.body;
    }
  }
}