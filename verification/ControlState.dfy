/** The state of a control graph: its containers, the links its nodes hold, and the edge
    objects; and what VirtualizeSubgraph does to it, one entrance and one exit at a time. */
module ControlState {
  import opened Graphs
  import opened CycleSearch
  import opened Regions
  import opened Contraction

  /** An edge object: one of the profile's, or a virtual edge over other edges. */
  datatype EdgeObject = Profiled(key: Edge) | Virtual(key: Edge, under: set<EdgeObject>)

  /** Frequency, probability and identity of the edge object filed under a key. */
  datatype Body = Body(freq: nat, weight: real, what: EdgeObject)

  datatype GraphState = GraphState(
    nodes: set<nat>, edges: set<Edge>,
    succs: Links, preds: Links,
    body: map<Edge, Body>,
    nextNID: nat)

  function NetOf(g: GraphState): Net {
    Net(g.nodes, g.edges)
  }

  function LinksOf(g: GraphState): Linked {
    Linked(g.succs, g.preds)
  }

  predicate Healthy(b: Body) {
    b.freq > 0 && 0.0 < b.weight <= 1.0
  }

  /** Every node's links are exactly the graph's edges at that node. */
  ghost predicate LinksAgree(g: GraphState) {
    && g.succs.Keys == g.nodes && g.preds.Keys == g.nodes
    && (forall n :: n in g.nodes ==> g.succs[n] == OutEdges(g.edges, n))
    && (forall n :: n in g.nodes ==> g.preds[n] == InEdges(g.edges, n))
  }

  ghost predicate Valid(g: GraphState) {
    && WellFormed(NetOf(g))
    && LinksAgree(g)
    && g.body.Keys == g.edges
    && (forall e {:trigger e in g.edges} :: e in g.edges ==> Healthy(g.body[e]))
    && (forall n :: n in g.nodes ==> n < g.nextNID)
  }

  lemma ValidIsMirrored(g: GraphState)
    requires Valid(g)
    ensures Mirrored(LinksOf(g)) && EdgesOf(LinksOf(g)) == g.edges
    ensures LinksFor(g.nodes, g.succs) && Visible(NetOf(g), g.succs) == g.edges
  {
    forall e | e in g.edges ensures e in EdgesOf(LinksOf(g)) {
      assert e in g.succs[e.src];
    }
  }

  // ----- sums over sets of edges -----

  ghost function Sum(S: set<Edge>, f: Edge -> nat): nat {
    if S == {} then 0
    else
      var x :| x in S;
      f(x) + Sum(S - {x}, f)
  }

  lemma SumTake(S: set<Edge>, f: Edge -> nat, x: Edge)
    requires x in S
    ensures Sum(S, f) == f(x) + Sum(S - {x}, f)
  {
    var y :| y in S && Sum(S, f) == f(y) + Sum(S - {y}, f);
    if y != x {
      SumTake(S - {y}, f, x);
      SumTake(S - {x}, f, y);
      assert S - {y} - {x} == S - {x} - {y};
    }
  }

  lemma SumUnion(S: set<Edge>, T: set<Edge>, f: Edge -> nat)
    requires S !! T
    ensures Sum(S + T, f) == Sum(S, f) + Sum(T, f)
  {
    if S == {} {
      assert S + T == T;
    } else {
      var x :| x in S;
      SumTake(S, f, x);
      SumTake(S + T, f, x);
      assert S + T - {x} == (S - {x}) + T;
      SumUnion(S - {x}, T, f);
    }
  }

  lemma SumSame(S: set<Edge>, f: Edge -> nat, h: Edge -> nat)
    requires forall e {:trigger e in S} :: e in S ==> f(e) == h(e)
    ensures Sum(S, f) == Sum(S, h)
  {
    if S != {} {
      var x :| x in S;
      SumTake(S, f, x);
      SumTake(S, h, x);
      SumSame(S - {x}, f, h);
    }
  }

  lemma SumMember(S: set<Edge>, f: Edge -> nat, x: Edge)
    requires x in S
    ensures f(x) <= Sum(S, f)
  {
    SumTake(S, f, x);
  }

  lemma SumSubset(S: set<Edge>, T: set<Edge>, f: Edge -> nat)
    requires S <= T
    ensures Sum(S, f) <= Sum(T, f)
  {
    assert T == S + (T - S);
    SumUnion(S, T - S, f);
  }

  ghost function FreqIn(body: map<Edge, Body>): Edge -> nat {
    e => if e in body then body[e].freq else 0
  }

  /** The frequency sum of a set of edges, as the loops accumulate it. */
  method TotalOf(S: set<Edge>, body: map<Edge, Body>) returns (total: nat)
    ensures total == Sum(S, FreqIn(body))
  {
    total := 0;
    var done: set<Edge> := {};
    while done < S
      invariant done <= S
      invariant total == Sum(done, FreqIn(body))
      decreases S - done
    {
      var e :| e in S && e !in done;
      SumTake(done + {e}, FreqIn(body), e);
      assert done + {e} - {e} == done;
      total := total + if e in body then body[e].freq else 0;
      done := done + {e};
    }
    assert done == S;
  }

  // ----- the boundary of a subgraph -----

  /** The edges that lead from u into the subgraph, its own included. */
  function Into(g: GraphState, N: set<nat>, u: nat): set<Edge>
    requires u in g.succs
  {
    set e | e in g.succs[u] && e.snk in N
  }

  /** getEntrances, by source: the nodes with an edge into the subgraph that is not its own. */
  function Entrants(g: GraphState, sub: Net): set<nat>
    requires sub.nodes <= g.preds.Keys
  {
    set n, e | n in sub.nodes && e in g.preds[n] && e !in sub.edges :: e.src
  }

  /** getExits: the edges that leave a node of the subgraph and are not its own. */
  function Exits(g: GraphState, sub: Net): set<Edge>
    requires sub.nodes <= g.succs.Keys
  {
    set n, e | n in sub.nodes && e in g.succs[n] && e !in sub.edges :: e
  }

  // ----- one entrance, one exit -----

  ghost function EntranceBody(g: GraphState, N: set<nat>, vn: nat, u: nat): Body
    requires u in g.succs && g.succs[u] <= g.body.Keys
  {
    var I, f := Into(g, N, u), FreqIn(g.body);
    Body(Sum(I, f),
         if Sum(g.succs[u], f) == 0 then 1.0 else Sum(I, f) as real / Sum(g.succs[u], f) as real,
         Virtual(Edge(Rep(N, vn, u), vn), set e | e in I :: g.body[e].what))
  }

  /** All edges of u into the subgraph become one edge to the virtual node. */
  function WrapEntrance(g: GraphState, N: set<nat>, vn: nat, u: nat, b: Body): GraphState
    requires u in g.succs && vn in g.preds
  {
    var I, key := Into(g, N, u), Edge(Rep(N, vn, u), vn);
    g.(edges := g.edges - I + {key},
       succs := g.succs[u := g.succs[u] - I + {key}],
       preds := g.preds[vn := g.preds[vn] + {key}],
       body := if key in g.edges - I && key in g.body then g.body - I else (g.body - I)[key := b])
  }

  /** The probability an exit edge keeps: its frequency over the whole number of times its
      source was left. */
  function ExitWeight(b: Body): real {
    if b.weight <= 0.0 || (b.freq as real / b.weight).Floor <= 0 then 1.0
    else b.freq as real / (b.freq as real / b.weight).Floor as real
  }

  function ExitBody(b: Body, key: Edge): Body {
    Body(b.freq, ExitWeight(b), Virtual(key, {b.what}))
  }

  /** An exit edge becomes an edge of the virtual node. */
  function WrapExit(g: GraphState, vn: nat, x: Edge): GraphState
    requires vn in g.succs && x.snk in g.preds && x in g.body
  {
    var key := Edge(vn, x.snk);
    g.(edges := g.edges - {x} + {key},
       succs := g.succs[vn := g.succs[vn] + {key}],
       preds := g.preds[x.snk := g.preds[x.snk] - {x} + {key}],
       body := if key in g.edges - {x} && key in g.body then g.body - {x}
               else (g.body - {x})[key := ExitBody(g.body[x], key)])
  }

  /** The virtual node object, before it has any edges. */
  function Start(g: GraphState): GraphState {
    g.(succs := g.succs[g.nextNID := {}], preds := g.preds[g.nextNID := {}], nextNID := g.nextNID + 1)
  }

  /** The contracted nodes and edges leave the graph, the virtual node joins it. */
  function Finish(g: GraphState, sub: Net, vn: nat): GraphState {
    var nodes := g.nodes - sub.nodes + {vn};
    g.(nodes := nodes,
       edges := g.edges - sub.edges,
       succs := map n | n in g.succs && n in nodes :: g.succs[n],
       preds := map n | n in g.preds && n in nodes :: g.preds[n],
       body := g.body - sub.edges)
  }

  // ----- the state in the middle of the two loops -----

  /** The keys of the edges made for the entrants S. */
  function EntKeys(N: set<nat>, vn: nat, S: set<nat>): (r: set<Edge>)
    ensures forall e {:trigger e in r} :: e in r ==> e.snk == vn
    ensures forall s {:trigger s in S} :: s in S ==> Edge(Rep(N, vn, s), vn) in r
  {
    set s | s in S :: Edge(Rep(N, vn, s), vn)
  }

  /** The keys of the edges made for the exits X. */
  function ExKeys(vn: nat, X: set<Edge>): (r: set<Edge>)
    ensures forall e {:trigger e in r} :: e in r ==> e.src == vn
    ensures forall x {:trigger x in X} :: x in X ==> Edge(vn, x.snk) in r
  {
    set x | x in X :: Edge(vn, x.snk)
  }

  /** The original edges still in place. */
  function Kept(E: set<Edge>, N: set<nat>, S: set<nat>, X: set<Edge>): set<Edge> {
    set e | e in E && !(e.src in S && e.snk in N) && e !in X
  }

  ghost predicate DuringEdges(g0: GraphState, g: GraphState, sub: Net, vn: nat, S: set<nat>, X: set<Edge>) {
    && g.nodes == g0.nodes && g.nextNID == g0.nextNID + 1
    && g.body.Keys == g.edges
    && g.edges == Kept(g0.edges, sub.nodes, S, X) + EntKeys(sub.nodes, vn, S) + ExKeys(vn, X)
  }

  ghost predicate DuringSuccs(g0: GraphState, g: GraphState, sub: Net, vn: nat, S: set<nat>, X: set<Edge>) {
    && g.succs.Keys == g0.nodes + {vn}
    && g.succs[vn] == ExKeys(vn, X)
    && forall n :: n in g0.nodes && n != vn ==>
         g.succs[n] == if n in S then OutEdges(Kept(g0.edges, sub.nodes, S, {}), n) + {Edge(Rep(sub.nodes, vn, n), vn)}
                       else OutEdges(g0.edges, n)
  }

  ghost predicate DuringPreds(g0: GraphState, g: GraphState, sub: Net, vn: nat, S: set<nat>, X: set<Edge>) {
    && g.preds.Keys == g0.nodes + {vn}
    && g.preds[vn] == EntKeys(sub.nodes, vn, S)
    && forall n :: n in g0.nodes && n != vn ==> g.preds[n] == InEdges(g0.edges, n) - X + InEdges(ExKeys(vn, X), n)
  }

  ghost predicate During(g0: GraphState, g: GraphState, sub: Net, vn: nat, S: set<nat>, X: set<Edge>) {
    && DuringEdges(g0, g, sub, vn, S, X)
    && DuringSuccs(g0, g, sub, vn, S, X)
    && DuringPreds(g0, g, sub, vn, S, X)
  }

  ghost predicate Contractible(g: GraphState, sub: Net, vn: nat) {
    Valid(g) && sub.nodes <= g.nodes && sub.edges <= g.edges && WellFormed(sub) && vn == g.nextNID
  }

  lemma FreshId(g: GraphState)
    requires Valid(g)
    ensures g.nextNID !in g.nodes && Fresh(g.edges, g.nextNID)
  {
    forall e | e in g.edges ensures e.src != g.nextNID && e.snk != g.nextNID {
      assert e.src in g.nodes && e.snk in g.nodes;
    }
  }

  lemma StartDuring(g0: GraphState, sub: Net)
    requires Contractible(g0, sub, g0.nextNID)
    ensures During(g0, Start(g0), sub, g0.nextNID, {}, {})
  {
    FreshId(g0);
    assert Kept(g0.edges, sub.nodes, {}, {}) == g0.edges;
    assert EntKeys(sub.nodes, g0.nextNID, {}) == {} && ExKeys(g0.nextNID, {}) == {};
  }

  lemma EntEdges(E: set<Edge>, N: set<nat>, vn: nat, S: set<nat>, u: nat)
    requires Fresh(E, vn) && vn !in N && u !in S
    ensures var I := set e | e in OutEdges(E, u) && e.snk in N;
      && Kept(E, N, S, {}) + EntKeys(N, vn, S) - I + {Edge(Rep(N, vn, u), vn)} == Kept(E, N, S + {u}, {}) + EntKeys(N,
            vn, S + {u})
      && OutEdges(E, u) - I == OutEdges(Kept(E, N, S + {u}, {}), u)
      && (forall n :: n != u ==> OutEdges(Kept(E, N, S + {u}, {}), n) == OutEdges(Kept(E, N, S, {}), n))
      && EntKeys(N, vn, S) + {Edge(Rep(N, vn, u), vn)} == EntKeys(N, vn, S + {u})
  {
    var I := set e | e in OutEdges(E, u) && e.snk in N;
    assert EntKeys(N, vn, S) + {Edge(Rep(N, vn, u), vn)} == EntKeys(N, vn, S + {u});
    assert Kept(E, N, S, {}) - I == Kept(E, N, S + {u}, {});
    assert EntKeys(N, vn, S) !! I;
  }

  lemma IntoIs(g0: GraphState, g: GraphState, sub: Net, vn: nat, S: set<nat>, u: nat)
    requires Contractible(g0, sub, vn) && DuringSuccs(g0, g, sub, vn, S, {})
    requires u in g0.nodes && u !in S
    ensures g.succs[u] == OutEdges(g0.edges, u)
    ensures Into(g, sub.nodes, u) == set e | e in OutEdges(g0.edges, u) && e.snk in sub.nodes
  {
    FreshId(g0);
  }

  lemma EntranceStepEdges(g0: GraphState, g: GraphState, sub: Net, vn: nat, S: set<nat>, u: nat, b: Body)
    requires Contractible(g0, sub, vn) && DuringEdges(g0, g, sub, vn, S, {}) && DuringSuccs(g0, g, sub, vn, S, {})
    requires vn in g.preds
    requires u in g0.nodes && u !in S && vn !in S
    ensures DuringEdges(g0, WrapEntrance(g, sub.nodes, vn, u, b), sub, vn, S + {u}, {})
  {
    FreshId(g0);
    EntEdges(g0.edges, sub.nodes, vn, S, u);
    IntoIs(g0, g, sub, vn, S, u);
    assert ExKeys(vn, {}) == {};
  }

  lemma EntranceStepSuccs(g0: GraphState, g: GraphState, sub: Net, vn: nat, S: set<nat>, u: nat, b: Body)
    requires Contractible(g0, sub, vn) && DuringSuccs(g0, g, sub, vn, S, {}) && vn in g.preds
    requires u in g0.nodes && u !in S && vn !in S
    ensures DuringSuccs(g0, WrapEntrance(g, sub.nodes, vn, u, b), sub, vn, S + {u}, {})
  {
    FreshId(g0);
    EntEdges(g0.edges, sub.nodes, vn, S, u);
    IntoIs(g0, g, sub, vn, S, u);
  }

  lemma EntranceStepPreds(g0: GraphState, g: GraphState, sub: Net, vn: nat, S: set<nat>, u: nat, b: Body)
    requires Contractible(g0, sub, vn) && DuringPreds(g0, g, sub, vn, S, {}) && u in g.succs
    requires u in g0.nodes && u !in S && vn !in S
    ensures DuringPreds(g0, WrapEntrance(g, sub.nodes, vn, u, b), sub, vn, S + {u}, {})
  {
    FreshId(g0);
    EntEdges(g0.edges, sub.nodes, vn, S, u);
  }

  lemma EntranceStep(g0: GraphState, g: GraphState, sub: Net, vn: nat, S: set<nat>, u: nat, b: Body)
    requires Contractible(g0, sub, vn) && During(g0, g, sub, vn, S, {})
    requires u in g0.nodes && u !in S && vn !in S
    ensures During(g0, WrapEntrance(g, sub.nodes, vn, u, b), sub, vn, S + {u}, {})
  {
    EntranceStepEdges(g0, g, sub, vn, S, u, b);
    EntranceStepSuccs(g0, g, sub, vn, S, u, b);
    EntranceStepPreds(g0, g, sub, vn, S, u, b);
  }

  /** An exit that is still to be wrapped: an original edge out of the subgraph, or the
      self-edge the entrance loop made for an edge inside it. */
  ghost predicate IsExit(g0: GraphState, sub: Net, vn: nat, S: set<nat>, x: Edge) {
    (x in g0.edges && x.src in sub.nodes && x.snk !in sub.nodes) || (x == Edge(vn, vn) && !(S !! sub.nodes))
  }

  lemma ExitEdges(E: set<Edge>, N: set<nat>, vn: nat, S: set<nat>, X: set<Edge>, x: Edge)
    requires Fresh(E, vn) && vn !in N && vn !in S && x !in X
    requires (x in E && x.src in N && x.snk !in N) || (x == Edge(vn, vn) && !(S !! N))
    ensures var key := Edge(vn, x.snk);
      && x in Kept(E, N, S, X) + EntKeys(N, vn, S) + ExKeys(vn, X)
      && Kept(E, N, S, X) + EntKeys(N, vn, S) + ExKeys(vn, X) - {x} + {key}
         == Kept(E, N, S, X + {x}) + EntKeys(N, vn, S) + ExKeys(vn, X + {x})
      && ExKeys(vn, X) + {key} == ExKeys(vn, X + {x})
  {
    var key := Edge(vn, x.snk);
    assert ExKeys(vn, X) + {key} == ExKeys(vn, X + {x});
    if x == Edge(vn, vn) {
      var s :| s in S && s in N;
      assert Edge(Rep(N, vn, s), vn) == x;
      assert Kept(E, N, S, X + {x}) == Kept(E, N, S, X);
    } else {
      assert Kept(E, N, S, X) - {x} == Kept(E, N, S, X + {x});
    }
  }

  lemma ExitStepEdges(g0: GraphState, g: GraphState, sub: Net, vn: nat, S: set<nat>, X: set<Edge>, x: Edge)
    requires Contractible(g0, sub, vn) && DuringEdges(g0, g, sub, vn, S, X) && vn in g.succs && x.snk in g.preds
    requires vn !in S && x !in X && IsExit(g0, sub, vn, S, x)
    ensures x in g.body && DuringEdges(g0, WrapExit(g, vn, x), sub, vn, S, X + {x})
  {
    FreshId(g0);
    ExitEdges(g0.edges, sub.nodes, vn, S, X, x);
  }

  lemma ExitInEdges(vn: nat, X: set<Edge>, x: Edge)
    requires x !in X
    ensures InEdges(ExKeys(vn, X + {x}), x.snk) == InEdges(ExKeys(vn, X), x.snk) + {Edge(vn, x.snk)}
    ensures forall n :: n != x.snk ==> InEdges(ExKeys(vn, X + {x}), n) == InEdges(ExKeys(vn, X), n)
  {
    assert ExKeys(vn, X + {x}) == ExKeys(vn, X) + {Edge(vn, x.snk)};
  }

  lemma SelfExitPreds(g0: GraphState, g: GraphState, sub: Net, vn: nat, S: set<nat>, X: set<Edge>)
    requires Contractible(g0, sub, vn) && DuringPreds(g0, g, sub, vn, S, X) && vn in g.succs && Edge(vn, vn) in g.body
    requires vn !in S && Edge(vn, vn) !in X && !(S !! sub.nodes)
    ensures DuringPreds(g0, WrapExit(g, vn, Edge(vn, vn)), sub, vn, S, X + {Edge(vn, vn)})
  {
    FreshId(g0);
    var key := Edge(vn, vn);
    var s :| s in S && s in sub.nodes;
    assert Edge(Rep(sub.nodes, vn, s), vn) in EntKeys(sub.nodes, vn, S);
    ExitInEdges(vn, X, key);
    forall n | n in g0.nodes && n != vn
      ensures InEdges(g0.edges, n) - (X + {key}) == InEdges(g0.edges, n) - X
    {
    }
  }

  lemma ExitStepPreds(g0: GraphState, g: GraphState, sub: Net, vn: nat, S: set<nat>, X: set<Edge>, x: Edge)
    requires Contractible(g0, sub, vn) && DuringPreds(g0, g, sub, vn, S, X) && vn in g.succs && x in g.body
    requires vn !in S && x !in X && IsExit(g0, sub, vn, S, x)
    ensures x.snk in g.preds && DuringPreds(g0, WrapExit(g, vn, x), sub, vn, S, X + {x})
  {
    FreshId(g0);
    if x == Edge(vn, vn) {
      SelfExitPreds(g0, g, sub, vn, S, X);
    } else {
      ExitInEdges(vn, X, x);
      forall n | n in g0.nodes && n != vn && n != x.snk
        ensures InEdges(g0.edges, n) - (X + {x}) == InEdges(g0.edges, n) - X
      {
      }
    }
  }

  lemma ExitStep(g0: GraphState, g: GraphState, sub: Net, vn: nat, S: set<nat>, X: set<Edge>, x: Edge)
    requires Contractible(g0, sub, vn) && During(g0, g, sub, vn, S, X)
    requires vn !in S && x !in X && IsExit(g0, sub, vn, S, x)
    ensures vn in g.succs && x.snk in g.preds && x in g.body
    ensures During(g0, WrapExit(g, vn, x), sub, vn, S, X + {x})
  {
    FreshId(g0);
    ExitEdges(g0.edges, sub.nodes, vn, S, X, x);
    ExitStepEdges(g0, g, sub, vn, S, X, x);
    ExitStepPreds(g0, g, sub, vn, S, X, x);
    ExitStepSuccs(g0, g, sub, vn, S, X, x);
  }

  lemma ExitStepSuccs(g0: GraphState, g: GraphState, sub: Net, vn: nat, S: set<nat>, X: set<Edge>, x: Edge)
    requires Contractible(g0, sub, vn) && DuringSuccs(g0, g, sub, vn, S, X) && x.snk in g.preds && x in g.body
    requires vn !in S && x !in X && IsExit(g0, sub, vn, S, x)
    ensures DuringSuccs(g0, WrapExit(g, vn, x), sub, vn, S, X + {x})
  {
    FreshId(g0);
    ExitEdges(g0.edges, sub.nodes, vn, S, X, x);
  }

  // ----- the finished contraction -----

  /** What the two loops must have dealt with. */
  ghost predicate AllWrapped(g0: GraphState, sub: Net, vn: nat, S: set<nat>, X: set<Edge>) {
    && (forall u {:trigger u in S} :: u in S <==> exists e ::
          e in g0.edges && e.src == u && e.snk in sub.nodes && e !in sub.edges)
    && (forall x {:trigger x in X} :: x in X <==> IsExit(g0, sub, vn, S, x))
  }

  lemma WrappedInQuotient(g0: GraphState, sub: Net, vn: nat, S: set<nat>, X: set<Edge>, q: Edge)
    requires Contractible(g0, sub, vn) && AllWrapped(g0, sub, vn, S, X)
    requires q in Kept(g0.edges, sub.nodes, S, X) + EntKeys(sub.nodes, vn, S) + ExKeys(vn, X) && q !in sub.edges
    ensures q in Quotient(g0.edges, sub, vn)
  {
    var E, N := g0.edges, sub.nodes;
    FreshId(g0);
    if q in Kept(E, N, S, X) {
      assert q.src !in N || q.snk in N;
      assert q.snk in N ==> q.src in S;
      assert q == RepEdge(N, vn, q);
    } else if q in EntKeys(N, vn, S) {
      EntrantInQuotient(g0, sub, vn, S, X, q);
    } else {
      ExitInQuotient(g0, sub, vn, S, X, q);
    }
  }

  lemma EntrantInQuotient(g0: GraphState, sub: Net, vn: nat, S: set<nat>, X: set<Edge>, q: Edge)
    requires Contractible(g0, sub, vn) && AllWrapped(g0, sub, vn, S, X) && q in EntKeys(sub.nodes, vn, S)
    ensures q in Quotient(g0.edges, sub, vn)
  {
    var s :| s in S && q == Edge(Rep(sub.nodes, vn, s), vn);
    var e :| e in g0.edges && e.src == s && e.snk in sub.nodes && e !in sub.edges;
    assert q == RepEdge(sub.nodes, vn, e);
  }

  lemma ExitInQuotient(g0: GraphState, sub: Net, vn: nat, S: set<nat>, X: set<Edge>, q: Edge)
    requires Contractible(g0, sub, vn) && AllWrapped(g0, sub, vn, S, X) && q in ExKeys(vn, X)
    ensures q in Quotient(g0.edges, sub, vn)
  {
    FreshId(g0);
    var x :| x in X && q == Edge(vn, x.snk);
    if x == Edge(vn, vn) {
      var s :| s in S && s in sub.nodes;
      assert q == Edge(Rep(sub.nodes, vn, s), vn);
      EntrantInQuotient(g0, sub, vn, S, X, q);
    } else {
      assert q == RepEdge(sub.nodes, vn, x);
    }
  }

  lemma QuotientIsWrapped(g0: GraphState, sub: Net, vn: nat, S: set<nat>, X: set<Edge>, q: Edge)
    requires Contractible(g0, sub, vn) && AllWrapped(g0, sub, vn, S, X) && q in Quotient(g0.edges, sub, vn)
    ensures q in Kept(g0.edges, sub.nodes, S, X) + EntKeys(sub.nodes, vn, S) + ExKeys(vn, X) && q !in sub.edges
  {
    var E, N := g0.edges, sub.nodes;
    FreshId(g0);
    var e := QuotientEdge(E, sub, vn, q);
    if e.snk in N {
      assert e.src in S;
      assert q in EntKeys(N, vn, S);
    } else if e.src in N {
      assert IsExit(g0, sub, vn, S, e);
      assert e in X;
    } else {
      assert q == e && e in Kept(E, N, S, X);
    }
  }

  lemma WrappedIsQuotient(g0: GraphState, sub: Net, vn: nat, S: set<nat>, X: set<Edge>)
    requires Contractible(g0, sub, vn) && AllWrapped(g0, sub, vn, S, X)
    ensures Kept(g0.edges, sub.nodes, S, X) + EntKeys(sub.nodes, vn, S) + ExKeys(vn,
          X) - sub.edges == Quotient(g0.edges, sub, vn)
  {
    var all := Kept(g0.edges, sub.nodes, S, X) + EntKeys(sub.nodes, vn, S) + ExKeys(vn, X);
    forall q | q in all - sub.edges ensures q in Quotient(g0.edges, sub, vn) {
      WrappedInQuotient(g0, sub, vn, S, X, q);
    }
    forall q | q in Quotient(g0.edges, sub, vn) ensures q in all - sub.edges {
      QuotientIsWrapped(g0, sub, vn, S, X, q);
    }
  }

  /** The entrants found at the start are exactly the sources that must be wrapped. */
  lemma EntrantsAre(g0: GraphState, sub: Net, u: nat)
    requires Contractible(g0, sub, g0.nextNID)
    ensures sub.nodes <= Start(g0).preds.Keys
    ensures u in Entrants(Start(g0), sub) <==> exists e ::
      e in g0.edges && e.src == u && e.snk in sub.nodes && e !in sub.edges
    ensures u in Entrants(Start(g0), sub) ==> u in g0.nodes
  {
    FreshId(g0);
    var g := Start(g0);
    if u in Entrants(g, sub) {
      var n, e :| n in sub.nodes && e in g.preds[n] && e !in sub.edges && e.src == u;
      assert e in g0.edges;
    }
    if e :| e in g0.edges && e.src == u && e.snk in sub.nodes && e !in sub.edges {
      assert e in g.preds[e.snk];
    }
  }

  /** Once every entrant is wrapped, the exits found are exactly the edges that must be wrapped;
      none of them ends inside the subgraph, so the test that skips such edges never applies. */
  lemma ExitsAre(g0: GraphState, g: GraphState, sub: Net, vn: nat, S: set<nat>, x: Edge)
    requires Contractible(g0, sub, vn) && DuringSuccs(g0, g, sub, vn, S, {}) && sub.nodes <= g.succs.Keys
    requires forall u {:trigger u in S} :: u in S <==> exists e ::
      e in g0.edges && e.src == u && e.snk in sub.nodes && e !in sub.edges
    ensures x in Exits(g, sub) <==> IsExit(g0, sub, vn, S, x)
    ensures x in Exits(g, sub) ==> x.snk !in sub.nodes
  {
    FreshId(g0);
    if x in Exits(g, sub) {
      var n, e :| n in sub.nodes && e in g.succs[n] && e !in sub.edges && e == x;
      if n !in S {
        assert e in g0.edges && e.src == n && (e.snk in sub.nodes ==> n in S);
      }
    }
    if IsExit(g0, sub, vn, S, x) {
      if x == Edge(vn, vn) {
        var s :| s in S && s in sub.nodes;
        assert x in g.succs[s] && x !in sub.edges;
      } else {
        assert x !in sub.edges && x in Kept(g0.edges, sub.nodes, S, {});
        assert x in g.succs[x.src];
      }
    }
  }

  lemma SuccsInQuotient(g0: GraphState, g: GraphState, sub: Net, vn: nat, S: set<nat>, X: set<Edge>, n: nat)
    requires Contractible(g0, sub, vn) && AllWrapped(g0, sub, vn, S, X) && DuringSuccs(g0, g, sub, vn, S, X)
    requires n in g0.nodes - sub.nodes + {vn}
    ensures g.succs[n] <= OutEdges(Quotient(g0.edges, sub, vn), n)
  {
    FreshId(g0);
    var Q := Quotient(g0.edges, sub, vn);
    forall q | q in g.succs[n] ensures q in OutEdges(Q, n) {
      if n == vn {
        var x :| x in X && q == Edge(vn, x.snk);
        if x == Edge(vn, vn) {
          var s :| s in S && s in sub.nodes;
          var e :| e in g0.edges && e.src == s && e.snk in sub.nodes && e !in sub.edges;
          assert q == RepEdge(sub.nodes, vn, e);
        } else {
          assert q == RepEdge(sub.nodes, vn, x);
        }
      } else if q == Edge(n, vn) {
        var e :| e in g0.edges && e.src == n && e.snk in sub.nodes && e !in sub.edges;
        assert q == RepEdge(sub.nodes, vn, e);
      } else {
        assert q in g0.edges;
        assert q.snk in sub.nodes ==> n in S;
        assert q == RepEdge(sub.nodes, vn, q);
      }
    }
  }

  lemma QuotientInSuccs(g0: GraphState, g: GraphState, sub: Net, vn: nat, S: set<nat>, X: set<Edge>, n: nat)
    requires Contractible(g0, sub, vn) && AllWrapped(g0, sub, vn, S, X) && DuringSuccs(g0, g, sub, vn, S, X)
    requires n in g0.nodes - sub.nodes + {vn}
    ensures OutEdges(Quotient(g0.edges, sub, vn), n) <= g.succs[n]
  {
    FreshId(g0);
    var Q := Quotient(g0.edges, sub, vn);
    forall q | q in OutEdges(Q, n) ensures q in g.succs[n] {
      var e := QuotientEdge(g0.edges, sub, vn, q);
      if n == vn {
        if e.snk in sub.nodes {
          assert e.src in S;
          assert IsExit(g0, sub, vn, S, q) && q in X;
        } else {
          assert IsExit(g0, sub, vn, S, e) && e in X;
        }
      }
    }
  }

  lemma FinishSuccs(g0: GraphState, g: GraphState, sub: Net, vn: nat, S: set<nat>, X: set<Edge>, n: nat)
    requires Contractible(g0, sub, vn) && AllWrapped(g0, sub, vn, S, X) && DuringSuccs(g0, g, sub, vn, S, X)
    requires n in g0.nodes - sub.nodes + {vn}
    ensures g.succs[n] == OutEdges(Quotient(g0.edges, sub, vn), n)
  {
    SuccsInQuotient(g0, g, sub, vn, S, X, n);
    QuotientInSuccs(g0, g, sub, vn, S, X, n);
  }

  lemma FinishPreds(g0: GraphState, g: GraphState, sub: Net, vn: nat, S: set<nat>, X: set<Edge>, n: nat)
    requires Contractible(g0, sub, vn) && AllWrapped(g0, sub, vn, S, X) && DuringPreds(g0, g, sub, vn, S, X)
    requires n in g0.nodes - sub.nodes + {vn}
    ensures g.preds[n] == InEdges(Quotient(g0.edges, sub, vn), n)
  {
    FreshId(g0);
    var Q := Quotient(g0.edges, sub, vn);
    forall q | q in g.preds[n] ensures q in InEdges(Q, n) {
      if n == vn {
        var s :| s in S && q == Edge(Rep(sub.nodes, vn, s), vn);
        var e :| e in g0.edges && e.src == s && e.snk in sub.nodes && e !in sub.edges;
        assert q == RepEdge(sub.nodes, vn, e);
      } else if q in g0.edges && q !in X {
        assert !IsExit(g0, sub, vn, S, q);
        assert q == RepEdge(sub.nodes, vn, q);
      } else {
        var x :| x in X && q == Edge(vn, x.snk);
        assert q == RepEdge(sub.nodes, vn, x);
      }
    }
    forall q | q in InEdges(Q, n) ensures q in g.preds[n] {
      var e := QuotientEdge(g0.edges, sub, vn, q);
      if n == vn {
        assert e.src in S;
      } else if e.src in sub.nodes {
        assert IsExit(g0, sub, vn, S, e) && e in X;
        assert q == Edge(vn, e.snk);
      } else {
        assert !IsExit(g0, sub, vn, S, e) && e == q;
      }
    }
  }

  /** What VirtualizeSubgraph leaves: the quotient, with links that agree with it. */
  lemma FinishNet(g0: GraphState, g: GraphState, sub: Net, vn: nat, S: set<nat>, X: set<Edge>)
    requires Contractible(g0, sub, vn) && AllWrapped(g0, sub, vn, S, X) && DuringEdges(g0, g, sub, vn, S, X)
    ensures var h := Finish(g, sub, vn);
      && h.nodes == g0.nodes - sub.nodes + {vn} && h.edges == Quotient(g0.edges, sub, vn)
      && WellFormed(NetOf(h)) && h.body.Keys == h.edges && h.nextNID == vn + 1
  {
    var h := Finish(g, sub, vn);
    WrappedIsQuotient(g0, sub, vn, S, X);
    forall q | q in h.edges ensures q.src in h.nodes && q.snk in h.nodes {
      var e := QuotientEdge(g0.edges, sub, vn, q);
      assert e.src in g0.nodes && e.snk in g0.nodes;
    }
  }

  lemma FinishIsQuotient(g0: GraphState, g: GraphState, sub: Net, vn: nat, S: set<nat>, X: set<Edge>)
    requires Contractible(g0, sub, vn) && AllWrapped(g0, sub, vn, S, X) && During(g0, g, sub, vn, S, X)
    ensures var h := Finish(g, sub, vn);
      && h.nodes == g0.nodes - sub.nodes + {vn} && h.edges == Quotient(g0.edges, sub, vn)
      && WellFormed(NetOf(h)) && LinksAgree(h) && h.body.Keys == h.edges && h.nextNID == vn + 1
  {
    var h := Finish(g, sub, vn);
    FinishNet(g0, g, sub, vn, S, X);
    forall n | n in h.nodes ensures h.succs[n] == OutEdges(h.edges, n) && h.preds[n] == InEdges(h.edges, n) {
      FinishSuccs(g0, g, sub, vn, S, X, n);
      FinishPreds(g0, g, sub, vn, S, X, n);
    }
  }

  // ----- the edge objects made on the way -----

  ghost predicate FromEntrance(g0: GraphState, sub: Net, vn: nat, u: nat, b: Body)
    requires Valid(g0)
  {
    && u in g0.nodes && u in sub.nodes
    && (exists e :: e in g0.edges && e.src == u && e.snk in sub.nodes && e !in sub.edges)
    && b == EntranceBody(g0, sub.nodes, vn, u)
  }

  ghost predicate FromExit(g0: GraphState, sub: Net, vn: nat, x: Edge, y: nat, b: Body)
    requires Valid(g0)
  {
    x in g0.edges && x.src in sub.nodes && x.snk == y && b == ExitBody(g0.body[x], Edge(vn, y))
  }

  /** Edges still in place keep their object. */
  ghost predicate KeptBodies(g0: GraphState, g: GraphState, N: set<nat>, S: set<nat>, X: set<Edge>) {
    forall e {:trigger e in Kept(g0.edges, N, S, X)} ::
      e in Kept(g0.edges, N, S, X) && e in g0.body ==> e in g.body && g.body[e] == g0.body[e]
  }

  ghost predicate EntranceBodies(g0: GraphState, g: GraphState, sub: Net, vn: nat, S: set<nat>)
    requires Valid(g0) && S <= g0.nodes
  {
    forall u {:trigger u in S} :: u in S && u !in sub.nodes ==>
      Edge(u, vn) in g.body && g.body[Edge(u, vn)] == EntranceBody(g0, sub.nodes, vn, u)
  }

  ghost predicate SelfBody(g0: GraphState, g: GraphState, sub: Net, vn: nat, S: set<nat>, X: set<Edge>)
    requires Valid(g0)
  {
    !(S !! sub.nodes) ==> Edge(vn, vn) in g.body && exists u, b ::
      && FromEntrance(g0, sub, vn, u, b)
      && g.body[Edge(vn, vn)] == if Edge(vn, vn) in X then ExitBody(b, Edge(vn, vn)) else b
  }

  ghost predicate ExitBodies(g0: GraphState, g: GraphState, sub: Net, vn: nat, X: set<Edge>)
    requires Valid(g0)
  {
    forall x {:trigger x in X} :: x in X && x.snk != vn ==>
      Edge(vn, x.snk) in g.body && exists x' :: FromExit(g0, sub, vn, x', x.snk, g.body[Edge(vn, x.snk)])
  }

  ghost predicate BodyDuring(g0: GraphState, g: GraphState, sub: Net, vn: nat, S: set<nat>, X: set<Edge>)
    requires Valid(g0) && S <= g0.nodes
  {
    && KeptBodies(g0, g, sub.nodes, S, X)
    && EntranceBodies(g0, g, sub, vn, S)
    && SelfBody(g0, g, sub, vn, S, X)
    && ExitBodies(g0, g, sub, vn, X)
  }

  lemma SameEntranceBody(g0: GraphState, g: GraphState, N: set<nat>, vn: nat, u: nat)
    requires u in g0.succs && u in g.succs && g.succs[u] == g0.succs[u] <= g0.body.Keys
    requires forall e {:trigger e in g0.succs[u]} :: e in g0.succs[u] ==> e in g.body && g.body[e] == g0.body[e]
    ensures EntranceBody(g, N, vn, u) == EntranceBody(g0, N, vn, u)
  {
    SumSame(g0.succs[u], FreqIn(g0.body), FreqIn(g.body));
    SumSame(Into(g0, N, u), FreqIn(g0.body), FreqIn(g.body));
    assert (set e | e in Into(g0, N, u) :: g0.body[e].what) == (set e | e in Into(g, N, u) :: g.body[e].what);
  }

  /** The object the entrance loop makes is the one read off the original graph. */
  lemma ReadsOriginal(g0: GraphState, g: GraphState, sub: Net, vn: nat, S: set<nat>, u: nat)
    requires Contractible(g0, sub, vn) && DuringSuccs(g0, g, sub, vn, S, {}) && KeptBodies(g0, g, sub.nodes, S, {})
    requires u in g0.nodes && u !in S
    ensures g.succs[u] == g0.succs[u] && g.succs[u] <= g.body.Keys
    ensures EntranceBody(g, sub.nodes, vn, u) == EntranceBody(g0, sub.nodes, vn, u)
  {
    FreshId(g0);
    IntoIs(g0, g, sub, vn, S, u);
    forall e | e in g0.succs[u] ensures e in g.body && g.body[e] == g0.body[e] {
      assert e in Kept(g0.edges, sub.nodes, S, {});
    }
    SameEntranceBody(g0, g, sub.nodes, vn, u);
  }

  lemma EntranceKeeps(g0: GraphState, g: GraphState, sub: Net, vn: nat, S: set<nat>, u: nat, b: Body)
    requires Contractible(g0, sub, vn) && u in g.succs && vn in g.preds && KeptBodies(g0, g, sub.nodes, S, {})
    requires u in g0.nodes && g.succs[u] == g0.succs[u]
    ensures KeptBodies(g0, WrapEntrance(g, sub.nodes, vn, u, b), sub.nodes, S + {u}, {})
  {
    FreshId(g0);
    var h := WrapEntrance(g, sub.nodes, vn, u, b);
    forall e | e in Kept(g0.edges, sub.nodes, S + {u}, {}) && e in g0.body
      ensures e in h.body && h.body[e] == g0.body[e]
    {
      assert e in Kept(g0.edges, sub.nodes, S, {});
      assert e !in Into(g, sub.nodes, u) && e.snk != vn;
    }
  }

  lemma EntranceOthers(g0: GraphState, g: GraphState, sub: Net, vn: nat, S: set<nat>, u: nat, b: Body)
    requires Contractible(g0, sub, vn) && u in g.succs && vn in g.preds && S <= g0.nodes
    requires EntranceBodies(g0, g, sub, vn, S)
    requires u in g0.nodes && u !in S && g.succs[u] == g0.succs[u]
    requires b == EntranceBody(g0, sub.nodes, vn, u)
    requires g.edges == g.body.Keys && (u !in sub.nodes ==> Edge(u, vn) !in g.edges)
    ensures EntranceBodies(g0, WrapEntrance(g, sub.nodes, vn, u, b), sub, vn, S + {u})
  {
    FreshId(g0);
    var h := WrapEntrance(g, sub.nodes, vn, u, b);
    forall w | w in S + {u} && w !in sub.nodes
      ensures Edge(w, vn) in h.body && h.body[Edge(w, vn)] == EntranceBody(g0, sub.nodes, vn, w)
    {
      assert Edge(w, vn) !in Into(g, sub.nodes, u);
    }
  }

  lemma EntranceSelf(g0: GraphState, g: GraphState, sub: Net, vn: nat, S: set<nat>, u: nat, b: Body)
    requires Contractible(g0, sub, vn) && u in g.succs && vn in g.preds && S <= g0.nodes
    requires SelfBody(g0, g, sub, vn, S, {}) && g.edges == g.body.Keys
    requires Edge(vn, vn) in g.edges ==> !(S !! sub.nodes)
    requires u in g0.nodes && g.succs[u] == g0.succs[u]
    requires u in sub.nodes ==> FromEntrance(g0, sub, vn, u, b)
    ensures SelfBody(g0, WrapEntrance(g, sub.nodes, vn, u, b), sub, vn, S + {u}, {})
  {
    FreshId(g0);
    var h := WrapEntrance(g, sub.nodes, vn, u, b);
    assert Edge(vn, vn) !in Into(g, sub.nodes, u);
    if Edge(vn, vn) in g.edges {
      assert h.body[Edge(vn, vn)] == g.body[Edge(vn, vn)];
    } else if u in sub.nodes {
      assert h.body[Edge(vn, vn)] == b;
    }
  }

  lemma EntKeyOf(g0: GraphState, sub: Net, vn: nat, S: set<nat>, u: nat)
    requires Contractible(g0, sub, vn) && S <= g0.nodes && u in g0.nodes && u !in sub.nodes && u !in S
    ensures Edge(u, vn) !in EntKeys(sub.nodes, vn, S) && Edge(u, vn) !in g0.edges
  {
    FreshId(g0);
    assert forall s :: s in S ==> Rep(sub.nodes, vn, s) != u;
  }

  lemma EntranceBodyStep(g0: GraphState, g: GraphState, sub: Net, vn: nat, S: set<nat>, u: nat, b: Body)
    requires Contractible(g0, sub, vn) && DuringEdges(g0, g, sub, vn, S, {}) && DuringSuccs(g0, g, sub, vn, S, {})
    requires vn in g.preds
    requires S <= g0.nodes && u in g0.nodes && u !in S && BodyDuring(g0, g, sub, vn, S, {})
    requires exists e :: e in g0.edges && e.src == u && e.snk in sub.nodes && e !in sub.edges
    requires b == EntranceBody(g0, sub.nodes, vn, u)
    ensures BodyDuring(g0, WrapEntrance(g, sub.nodes, vn, u, b), sub, vn, S + {u}, {})
  {
    ReadsOriginal(g0, g, sub, vn, S, u);
    EntranceKeeps(g0, g, sub, vn, S, u, b);
    EntranceKeys(g0, g, sub, vn, S, u);
    EntranceOthers(g0, g, sub, vn, S, u, b);
    EntranceSelf(g0, g, sub, vn, S, u, b);
  }

  lemma EntranceKeys(g0: GraphState, g: GraphState, sub: Net, vn: nat, S: set<nat>, u: nat)
    requires Contractible(g0, sub, vn) && DuringEdges(g0, g, sub, vn, S, {}) && S <= g0.nodes
    requires u in g0.nodes && u !in S
    ensures u !in sub.nodes ==> Edge(u, vn) !in g.edges
    ensures Edge(vn, vn) in g.edges ==> !(S !! sub.nodes)
  {
    FreshId(g0);
    assert ExKeys(vn, {}) == {};
    if u !in sub.nodes {
      EntKeyOf(g0, sub, vn, S, u);
    }
    if Edge(vn, vn) in g.edges {
      KeyFromInner(g0, sub, vn, S);
    }
  }

  lemma KeyFromInner(g0: GraphState, sub: Net, vn: nat, S: set<nat>)
    requires Contractible(g0, sub, vn) && S <= g0.nodes
    requires Edge(vn, vn) in EntKeys(sub.nodes, vn, S)
    ensures !(S !! sub.nodes)
  {
    FreshId(g0);
    var s :| s in S && Edge(vn, vn) == Edge(Rep(sub.nodes, vn, s), vn);
    assert s in sub.nodes;
  }

  lemma ExitKeeps(g0: GraphState, g: GraphState, sub: Net, vn: nat, S: set<nat>, X: set<Edge>, x: Edge)
    requires Contractible(g0, sub, vn) && S <= g0.nodes && vn in g.succs && x.snk in g.preds && x in g.body
    requires KeptBodies(g0, g, sub.nodes, S, X) && EntranceBodies(g0, g, sub, vn, S)
    requires IsExit(g0, sub, vn, S, x)
    ensures KeptBodies(g0, WrapExit(g, vn, x), sub.nodes, S, X + {x})
    ensures EntranceBodies(g0, WrapExit(g, vn, x), sub, vn, S)
  {
    FreshId(g0);
    var h := WrapExit(g, vn, x);
    forall e | e in Kept(g0.edges, sub.nodes, S, X + {x}) && e in g0.body
      ensures e in h.body && h.body[e] == g0.body[e]
    {
      assert e in Kept(g0.edges, sub.nodes, S, X) && e != x && e.src != vn;
    }
    forall u | u in S && u !in sub.nodes
      ensures Edge(u, vn) in h.body && h.body[Edge(u, vn)] == EntranceBody(g0, sub.nodes, vn, u)
    {
      assert Edge(u, vn) != x && u != vn;
    }
  }

  lemma ExitSelf(g0: GraphState, g: GraphState, sub: Net, vn: nat, S: set<nat>, X: set<Edge>, x: Edge)
    requires Contractible(g0, sub, vn) && vn in g.succs && x.snk in g.preds && x in g.body
    requires SelfBody(g0, g, sub, vn, S, X) && IsExit(g0, sub, vn, S, x) && x !in X
    ensures SelfBody(g0, WrapExit(g, vn, x), sub, vn, S, X + {x})
  {
    FreshId(g0);
  }

  lemma ExitOthers(g0: GraphState, g: GraphState, sub: Net, vn: nat, S: set<nat>, X: set<Edge>, x: Edge)
    requires Contractible(g0, sub, vn) && vn in g.succs && x.snk in g.preds && x in g.body
    requires DuringEdges(g0, g, sub, vn, S, X) && S <= g0.nodes && vn !in S
    requires KeptBodies(g0, g, sub.nodes, S, X) && ExitBodies(g0, g, sub, vn, X)
    requires IsExit(g0, sub, vn, S, x) && x !in X
    ensures ExitBodies(g0, WrapExit(g, vn, x), sub, vn, X + {x})
  {
    FreshId(g0);
    var h, key := WrapExit(g, vn, x), Edge(vn, x.snk);
    forall z | z in X + {x} && z.snk != vn
      ensures Edge(vn, z.snk) in h.body && exists x' :: FromExit(g0, sub, vn, x', z.snk, h.body[Edge(vn, z.snk)])
    {
      var k := Edge(vn, z.snk);
      assert k != x;
      if k in g.edges {
        OldExitKey(g0, sub, vn, S, X, z.snk);
        var z' :| z' in X && z'.snk == z.snk;
        assert h.body[k] == g.body[k];
      } else {
        assert z == x && x in Kept(g0.edges, sub.nodes, S, X);
        assert FromExit(g0, sub, vn, x, x.snk, h.body[k]);
      }
    }
  }

  lemma OldExitKey(g0: GraphState, sub: Net, vn: nat, S: set<nat>, X: set<Edge>, y: nat)
    requires Contractible(g0, sub, vn) && y != vn
    requires Edge(vn, y) in Kept(g0.edges, sub.nodes, S, X) + EntKeys(sub.nodes, vn, S) + ExKeys(vn, X)
    ensures exists z :: z in X && z.snk == y
  {
    FreshId(g0);
  }

  lemma ExitBodyStep(g0: GraphState, g: GraphState, sub: Net, vn: nat, S: set<nat>, X: set<Edge>, x: Edge)
    requires Contractible(g0, sub, vn) && vn in g.succs && x.snk in g.preds && x in g.body
    requires DuringEdges(g0, g, sub, vn, S, X) && S <= g0.nodes && vn !in S
    requires BodyDuring(g0, g, sub, vn, S, X) && IsExit(g0, sub, vn, S, x) && x !in X
    ensures BodyDuring(g0, WrapExit(g, vn, x), sub, vn, S, X + {x})
  {
    ExitKeeps(g0, g, sub, vn, S, X, x);
    ExitSelf(g0, g, sub, vn, S, X, x);
    ExitOthers(g0, g, sub, vn, S, X, x);
  }

  /** The edge objects of the contracted graph, told apart by which end is the virtual node. */
  ghost predicate BodiesAfter(g0: GraphState, h: GraphState, sub: Net, vn: nat)
    requires Valid(g0) && h.body.Keys == h.edges
  {
    && (forall e {:trigger e in h.edges} :: e in h.edges && e.src != vn && e.snk != vn ==>
          e in g0.edges && h.body[e] == g0.body[e])
    && (forall e {:trigger e in h.edges} :: e in h.edges && e.src != vn && e.snk == vn ==>
          e.src in g0.nodes && e.src !in sub.nodes && h.body[e] == EntranceBody(g0, sub.nodes, vn, e.src))
    && (forall e {:trigger e in h.edges} :: e in h.edges && e.src == vn && e.snk != vn ==> exists x ::
          FromExit(g0, sub, vn, x, e.snk, h.body[e]))
    && (Edge(vn, vn) in h.edges ==> exists u, b ::
          FromEntrance(g0, sub, vn, u, b) && h.body[Edge(vn, vn)] == ExitBody(b, Edge(vn, vn)))
  }

  lemma FinishBodies(g0: GraphState, g: GraphState, sub: Net, vn: nat, S: set<nat>, X: set<Edge>)
    requires Contractible(g0, sub, vn) && AllWrapped(g0, sub, vn, S, X) && S <= g0.nodes
    requires DuringEdges(g0, g, sub, vn, S, X) && BodyDuring(g0, g, sub, vn, S, X)
    ensures BodiesAfter(g0, Finish(g, sub, vn), sub, vn)
  {
    FreshId(g0);
    var h := Finish(g, sub, vn);
    forall e | e in h.edges && e.src != vn && e.snk != vn ensures e in g0.edges && h.body[e] == g0.body[e] {
      assert e in Kept(g0.edges, sub.nodes, S, X);
    }
    forall e | e in h.edges && e.src != vn && e.snk == vn
      ensures e.src in g0.nodes && e.src !in sub.nodes && h.body[e] == EntranceBody(g0, sub.nodes, vn, e.src)
    {
      assert e in EntKeys(sub.nodes, vn, S);
      var s :| s in S && e == Edge(Rep(sub.nodes, vn, s), vn);
    }
    forall e | e in h.edges && e.src == vn && e.snk != vn
      ensures exists x :: FromExit(g0, sub, vn, x, e.snk, h.body[e])
    {
      OldExitKey(g0, sub, vn, S, X, e.snk);
      var z :| z in X && z.snk == e.snk;
      assert e == Edge(vn, z.snk);
    }
    if Edge(vn, vn) in h.edges {
      SelfKeyMeansInner(g0, sub, vn, S, X);
      assert IsExit(g0, sub, vn, S, Edge(vn, vn)) && Edge(vn, vn) in X;
    }
  }

  lemma SelfKeyMeansInner(g0: GraphState, sub: Net, vn: nat, S: set<nat>, X: set<Edge>)
    requires Contractible(g0, sub, vn) && AllWrapped(g0, sub, vn, S, X) && S <= g0.nodes
    requires Edge(vn, vn) in Kept(g0.edges, sub.nodes, S, X) + EntKeys(sub.nodes, vn, S) + ExKeys(vn, X)
    ensures !(S !! sub.nodes)
  {
    FreshId(g0);
    if Edge(vn, vn) in EntKeys(sub.nodes, vn, S) {
      KeyFromInner(g0, sub, vn, S);
    } else {
      var x :| x in X && Edge(vn, vn) == Edge(vn, x.snk);
      assert IsExit(g0, sub, vn, S, x);
      assert x.snk !in g0.nodes;
    }
  }

  lemma ExitWeightBounds(b: Body)
    requires Healthy(b)
    ensures 0.0 < ExitWeight(b) <= 1.0
  {
    var q := b.freq as real / b.weight;
    assert q * b.weight == b.freq as real;
    assert q >= b.freq as real;
    var k := q.Floor;
    assert k >= b.freq;
    assert b.freq as real / k as real <= 1.0;
  }

  lemma EntranceBodyHealthy(g: GraphState, N: set<nat>, vn: nat, u: nat)
    requires Valid(g) && u in g.nodes && Into(g, N, u) != {}
    ensures Healthy(EntranceBody(g, N, vn, u))
  {
    var I, f := Into(g, N, u), FreqIn(g.body);
    var e :| e in I;
    assert e in g.edges && f(e) > 0;
    SumMember(I, f, e);
    SumSubset(I, g.succs[u], f);
    ShareBounds(Sum(I, f), Sum(g.succs[u], f));
  }

  lemma ShareBounds(a: nat, b: nat)
    requires 0 < a <= b
    ensures 0.0 < a as real / b as real <= 1.0
  {
    assert a as real / b as real <= b as real / b as real;
  }

  lemma BodiesHealthy(g0: GraphState, h: GraphState, sub: Net, vn: nat)
    requires Contractible(g0, sub, vn) && h.edges == Quotient(g0.edges, sub, vn) && h.body.Keys == h.edges
    requires BodiesAfter(g0, h, sub, vn)
    ensures forall e {:trigger e in h.edges} :: e in h.edges ==> Healthy(h.body[e])
  {
    FreshId(g0);
    forall e | e in h.edges ensures Healthy(h.body[e]) {
      if e.src != vn && e.snk == vn {
        var o := QuotientEdge(g0.edges, sub, vn, e);
        assert o in g0.succs[e.src] && o in Into(g0, sub.nodes, e.src);
        EntranceBodyHealthy(g0, sub.nodes, vn, e.src);
      } else if e.src == vn && e.snk != vn {
        var x :| FromExit(g0, sub, vn, x, e.snk, h.body[e]);
        ExitWeightBounds(g0.body[x]);
      } else if e.src == vn {
        assert e == Edge(vn, vn);
        var u, b :| FromEntrance(g0, sub, vn, u, b) && h.body[Edge(vn, vn)] == ExitBody(b, Edge(vn, vn));
        var o :| o in g0.edges && o.src == u && o.snk in sub.nodes && o !in sub.edges;
        assert o in g0.succs[u] && o in Into(g0, sub.nodes, u);
        EntranceBodyHealthy(g0, sub.nodes, vn, u);
        ExitWeightBounds(b);
      }
    }
  }

  /** The whole effect of VirtualizeSubgraph. */
  ghost predicate Virtualized(g0: GraphState, h: GraphState, sub: Net, vn: nat) {
    && Valid(g0) && Valid(h)
    && h.nodes == g0.nodes - sub.nodes + {vn}
    && h.edges == Quotient(g0.edges, sub, vn)
    && h.nextNID == vn + 1
    && BodiesAfter(g0, h, sub, vn)
  }

  lemma FinishIsVirtualized(g0: GraphState, g: GraphState, sub: Net, vn: nat, S: set<nat>, X: set<Edge>)
    requires Contractible(g0, sub, vn) && AllWrapped(g0, sub, vn, S, X) && S <= g0.nodes
    requires During(g0, g, sub, vn, S, X) && BodyDuring(g0, g, sub, vn, S, X)
    ensures Virtualized(g0, Finish(g, sub, vn), sub, vn)
  {
    FinishIsQuotient(g0, g, sub, vn, S, X);
    FinishBodies(g0, g, sub, vn, S, X);
    BodiesHealthy(g0, Finish(g, sub, vn), sub, vn);
    FreshId(g0);
  }
}
