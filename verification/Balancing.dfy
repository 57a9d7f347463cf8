/** Kirchhoff's current law: what one rewrite does to the two edges of a node, and what any number
    of them comes to. */
module Balancing {
  import opened Graphs
  import opened Sets
  import opened Traces
  import opened CycleSearch
  import opened ControlState
  import opened Flow

  // ----- one node -----

  predicate BalancedAt(g: GraphState, n: nat) {
    n in g.succs && n in g.preds && OneInOneOut(g, n) ==>
      forall p, s {:trigger p in g.preds[n], s in g.succs[n]} ::
        p in g.preds[n] && s in g.succs[n] && p in g.body && s in g.body ==> g.body[p].freq == g.body[s].freq
  }

  ghost function AtRest(g: GraphState): set<nat> {
    set n | n in g.nodes && BalancedAt(g, n)
  }

  function Lesser(a: nat, b: nat): nat {
    if a < b then a else b
  }

  /** Both edges of an unbalanced node get the smaller of their frequencies, and no other frequency
      changes. */
  ghost predicate Evened(g: GraphState, h: GraphState, n: nat) {
    && Valid(g) && h == g.(body := h.body) && h.body.Keys == g.edges
    && n in g.nodes && OneInOneOut(g, n) && !BalancedAt(g, n)
    && (forall p, s {:trigger p in g.preds[n], s in g.succs[n]} :: p in g.preds[n] && s in g.succs[n] ==>
          h.body[p].freq == h.body[s].freq == Lesser(g.body[p].freq, g.body[s].freq))
    && (forall e {:trigger e in g.edges} :: e in g.edges && e !in g.preds[n] && e !in g.succs[n] ==>
          h.body[e].freq == g.body[e].freq)
  }

  lemma LonePair(g: GraphState, n: nat, pred: Edge, succ: Edge)
    requires Valid(g) && n in g.nodes && OneInOneOut(g, n) && pred in g.preds[n] && succ in g.succs[n]
    ensures g.preds[n] == {pred} && g.succs[n] == {succ} && pred.snk == n == succ.src
    ensures pred in g.edges && succ in g.edges && g.body[pred].freq > 0 && g.body[succ].freq > 0
    ensures BalancedAt(g, n) <==> g.body[pred].freq == g.body[succ].freq
  {
    Only(g.preds[n], pred);
    Only(g.succs[n], succ);
    assert Healthy(g.body[pred]) && Healthy(g.body[succ]);
  }

  /** Lowering the larger edge of a node to the smaller one's frequency. */
  lemma LoweringEvens(g: GraphState, h: GraphState, n: nat, pred: Edge, succ: Edge, big: Edge, small: Edge)
    requires Valid(g) && n in g.nodes && OneInOneOut(g, n) && pred in g.preds[n] && succ in g.succs[n]
    requires (big == pred && small == succ) || (big == succ && small == pred)
    requires big in g.edges && small in g.edges && g.body[small].freq < g.body[big].freq
    requires KCLStep(g, h, big, g.body[small].freq)
    ensures Evened(g, h, n)
  {
    LonePair(g, n, pred, succ);
    forall e | e in g.edges && e != big ensures h.body[e].freq == g.body[e].freq {
      assert e in g.body;
    }
  }

  /** Then the node is balanced. */
  lemma EvenedIsBalanced(g: GraphState, h: GraphState, n: nat)
    requires Evened(g, h, n)
    ensures BalancedAt(h, n)
  {
  }

  // ----- edges joined through nodes with one way in and one way out -----

  predicate Meets(g: GraphState, e: Edge, f: Edge) {
    e.snk == f.src && e.snk in g.succs && e.snk in g.preds && OneInOneOut(g, e.snk)
  }

  predicate Adjoins(g: GraphState, e: Edge, f: Edge) {
    e in g.edges && f in g.edges && (Meets(g, e, f) || Meets(g, f, e))
  }

  ghost predicate JoinAt(g: GraphState, p: seq<Edge>, i: int) {
    0 <= i < |p| - 1 ==> Adjoins(g, p[i], p[i + 1])
  }

  ghost predicate JoinedBy(g: GraphState, e: Edge, f: Edge, p: seq<Edge>) {
    && |p| > 0 && p[0] == e && p[|p| - 1] == f
    && forall i {:trigger JoinAt(g, p, i)} :: JoinAt(g, p, i)
  }

  ghost predicate Joined(g: GraphState, e: Edge, f: Edge) {
    exists p :: JoinedBy(g, e, f, p)
  }

  lemma JoinedSelf(g: GraphState, e: Edge)
    ensures Joined(g, e, e)
  {
    assert JoinedBy(g, e, e, [e]);
  }

  lemma JoinedNext(g: GraphState, e: Edge, d: Edge, f: Edge)
    requires Adjoins(g, e, d) && Joined(g, d, f)
    ensures Joined(g, e, f)
  {
    var p :| JoinedBy(g, d, f, p);
    forall i ensures JoinAt(g, [e] + p, i) {
      assert JoinAt(g, p, i - 1);
    }
    assert JoinedBy(g, e, f, [e] + p);
  }

  /** An edge with no such node at either end is joined to itself only. */
  lemma AloneIsItself(g: GraphState, e: Edge, f: Edge)
    requires Valid(g) && e in g.edges && !OneInOneOut(g, e.src) && !OneInOneOut(g, e.snk) && Joined(g, e, f)
    ensures f == e
  {
    var p :| JoinedBy(g, e, f, p);
    assert JoinAt(g, p, 0);
  }

  // ----- any number of rewrites -----

  ghost predicate DropsTo(g: GraphState, h: GraphState, e: Edge, f: Edge) {
    e in h.body && f in g.body && Joined(g, e, f) && h.body[e].freq == g.body[f].freq
  }

  /** The frequency of an edge is at most what it was, and what it was on some joined edge. */
  ghost predicate LoweredEdge(g: GraphState, h: GraphState, e: Edge) {
    e in g.edges ==>
      e in g.body && e in h.body && h.body[e].freq <= g.body[e].freq && exists f :: DropsTo(g, h, e, f)
  }

  /** Nothing but edge objects changed. */
  ghost predicate SameShape(g: GraphState, h: GraphState) {
    Valid(g) && h == g.(body := h.body) && h.body.Keys == g.edges
  }

  ghost predicate Lowered(g: GraphState, h: GraphState) {
    SameShape(g, h) && forall e {:trigger LoweredEdge(g, h, e)} :: LoweredEdge(g, h, e)
  }

  lemma LoweredSelf(g: GraphState)
    requires Valid(g)
    ensures Lowered(g, g)
  {
    forall e ensures LoweredEdge(g, g, e) {
      if e in g.edges {
        JoinedSelf(g, e);
        assert DropsTo(g, g, e, e);
      }
    }
  }

  /** The two edges of an evened node adjoin. */
  lemma EvenedPair(h: GraphState, k: GraphState, n: nat) returns (pred: Edge, succ: Edge)
    requires Evened(h, k, n)
    ensures Adjoins(h, pred, succ) && Adjoins(h, succ, pred) && pred in k.body && succ in k.body
    ensures pred in h.body && succ in h.body
    ensures k.body[pred].freq == k.body[succ].freq == Lesser(h.body[pred].freq, h.body[succ].freq)
    ensures forall e :: e in h.edges && e != pred && e != succ ==> k.body[e].freq == h.body[e].freq
  {
    pred :| pred in h.preds[n];
    succ :| succ in h.succs[n];
    LonePair(h, n, pred, succ);
  }

  lemma SameJoins(g: GraphState, h: GraphState, e: Edge, d: Edge)
    requires SameShape(g, h)
    ensures Adjoins(h, e, d) == Adjoins(g, e, d)
  {
  }

  /** One more node is evened. */
  lemma LoweredNext(g: GraphState, h: GraphState, k: GraphState, n: nat)
    requires Lowered(g, h) && Evened(h, k, n)
    ensures Lowered(g, k)
  {
    var pred, succ := EvenedPair(h, k, n);
    SameJoins(g, h, pred, succ);
    SameJoins(g, h, succ, pred);
    forall e ensures LoweredEdge(g, k, e) {
      assert LoweredEdge(g, h, e);
      if e in g.edges {
        if e == pred {
          TakesOver(g, h, k, pred, succ);
        } else if e == succ {
          TakesOver(g, h, k, succ, pred);
        } else {
          StaysLowered(g, h, k, e);
        }
      }
    }
  }

  lemma StaysLowered(g: GraphState, h: GraphState, k: GraphState, e: Edge)
    requires LoweredEdge(g, h, e) && e in g.edges && e in h.body && e in k.body && k.body[e].freq == h.body[e].freq
    ensures LoweredEdge(g, k, e)
  {
    var f :| DropsTo(g, h, e, f);
    assert DropsTo(g, k, e, f);
  }

  /** An edge that gets the smaller of its own frequency and an adjoining edge's. */
  lemma TakesOver(g: GraphState, h: GraphState, k: GraphState, e: Edge, d: Edge)
    requires LoweredEdge(g, h, e) && LoweredEdge(g, h, d) && Adjoins(g, e, d) && e in k.body
    requires k.body[e].freq == Lesser(h.body[e].freq, h.body[d].freq)
    ensures LoweredEdge(g, k, e)
  {
    if k.body[e].freq == h.body[e].freq {
      StaysLowered(g, h, k, e);
    } else {
      var f :| DropsTo(g, h, d, f);
      JoinedNext(g, e, d, f);
      assert DropsTo(g, k, e, f);
    }
  }

  /** So it keeps its frequency. */
  lemma AloneKeeps(g: GraphState, h: GraphState, e: Edge)
    requires Lowered(g, h) && e in g.edges && !OneInOneOut(g, e.src) && !OneInOneOut(g, e.snk)
    ensures h.body[e].freq == g.body[e].freq
  {
    assert LoweredEdge(g, h, e);
    var f :| DropsTo(g, h, e, f);
    AloneIsItself(g, e, f);
  }

  /** What only rewrites made of a graph, once it is balanced: every edge has the least frequency of
      all edges joined to it, whatever the order of the rewrites was. */
  lemma BalancedIsLeast(g: GraphState, h: GraphState, e: Edge)
    requires Lowered(g, h) && Balanced(h) && e in g.edges
    ensures exists f :: DropsTo(g, h, e, f)
    ensures forall f :: f in g.edges && Joined(g, e, f) ==> h.body[e].freq <= g.body[f].freq
  {
    assert LoweredEdge(g, h, e);
    forall f | f in g.edges && Joined(g, e, f) ensures h.body[e].freq <= g.body[f].freq {
      var p :| JoinedBy(g, e, f, p);
      JoinedAreEqual(g, h, p, |p| - 1);
      assert LoweredEdge(g, h, f);
    }
  }

  lemma AdjoiningAreEqual(g: GraphState, h: GraphState, d: Edge, e: Edge)
    requires SameShape(g, h) && Balanced(h) && Adjoins(g, d, e)
    ensures h.body[d].freq == h.body[e].freq
  {
    SameJoins(g, h, d, e);
  }

  lemma {:induction false} JoinedAreEqual(g: GraphState, h: GraphState, p: seq<Edge>, i: nat)
    requires SameShape(g, h) && Balanced(h) && i < |p| && p[0] in g.edges
    requires forall j {:trigger JoinAt(g, p, j)} :: JoinAt(g, p, j)
    ensures p[i] in g.edges && h.body[p[i]].freq == h.body[p[0]].freq
  {
    if i > 0 {
      JoinedAreEqual(g, h, p, i - 1);
      assert JoinAt(g, p, i - 1);
      AdjoiningAreEqual(g, h, p[i - 1], p[i]);
    }
  }

  // ----- a whole pass -----

  /** A rewrite of one node: its two edges are evened, by replacing the larger. */
  ghost predicate Evens(g: GraphState, h: GraphState, n: nat, big: Edge, least: nat) {
    Evened(g, h, n) && big in g.edges && KCLStep(g, h, big, least)
  }

  ghost predicate EvensSomewhere(g: GraphState, h: GraphState) {
    exists n, big, least :: Evens(g, h, n, big, least)
  }

  ghost function BalanceStep(): (GraphState, GraphState) -> bool {
    (g: GraphState, h: GraphState) => EvensSomewhere(g, h)
  }

  ghost function RestsAt(n: nat): GraphState -> bool {
    (g: GraphState) => BalancedAt(g, n)
  }

  /** The graphs of a pass from g to h, over the nodes `done`: every node was balanced at some time,
      and frequencies were only passed on between joined edges. */
  ghost predicate BalancePass(s: seq<GraphState>, g: GraphState, h: GraphState, done: set<nat>) {
    && Leads(BalanceStep(), s, g, h) && Lowered(g, h)
    && forall n {:trigger n in done} :: n in done ==> Once(s, RestsAt(n))
  }

  /** The pass so far, and whether it changed anything. */
  ghost predicate Balances(s: seq<GraphState>, g: GraphState, h: GraphState, done: set<nat>, changed: bool) {
    && BalancePass(s, g, h, done) && h.nodes == g.nodes && h.edges == g.edges
    && if changed then TotalFreq(h) < TotalFreq(g) else h == g && done <= AtRest(g)
  }

  lemma BalanceStarts(g: GraphState)
    requires Valid(g)
    ensures Balances([g], g, g, {}, false)
  {
    LoweredSelf(g);
    LeadsOne(BalanceStep(), g);
  }

  /** A pass that changed nothing over all nodes found them balanced. */
  lemma BalanceEnds(s: seq<GraphState>, g: GraphState, h: GraphState, changed: bool)
    requires Balances(s, g, h, g.nodes, changed)
    ensures BalancePass(s, g, h, g.nodes) && h.nodes == g.nodes && h.edges == g.edges
    ensures changed ==> TotalFreq(h) < TotalFreq(g)
    ensures !changed ==> h == g && Balanced(h)
  {
    if !changed {
      AllBalanced(h);
    }
  }

  lemma AllBalanced(g: GraphState)
    requires Valid(g) && g.nodes <= AtRest(g)
    ensures Balanced(g)
  {
    forall p, s | p in g.edges && s in g.edges && p.snk == s.src && OneInOneOut(g, s.src)
      ensures g.body[p].freq == g.body[s].freq
    {
      assert s.src in AtRest(g) && p in g.preds[s.src] && s in g.succs[s.src];
    }
  }

  lemma BalanceStays(s: seq<GraphState>, g: GraphState, h: GraphState, done: set<nat>, n: nat)
    requires BalancePass(s, g, h, done) && BalancedAt(h, n)
    ensures BalancePass(s, g, h, done + {n})
  {
    OnceLast(s, RestsAt(n));
  }

  lemma BalanceGoesOn(s: seq<GraphState>, g: GraphState, h: GraphState, done: set<nat>, k: GraphState, n: nat,
                      big: Edge, least: nat)
    requires BalancePass(s, g, h, done) && Evens(h, k, n, big, least)
    ensures BalancePass(s + [k], g, k, done + {n})
  {
    EvensIsStep(h, k, n, big, least);
    LeadsOn(BalanceStep(), s, g, h, k);
    LoweredNext(g, h, k, n);
    forall m | m in done + {n} ensures Once(s + [k], RestsAt(m)) {
      assert m in done || m == n;
      OnceStill(s, RestsAt(m), k);
    }
  }

  lemma EvensIsStep(g: GraphState, h: GraphState, n: nat, big: Edge, least: nat)
    requires Evens(g, h, n, big, least)
    ensures BalanceStep()(g, h) && RestsAt(n)(h)
  {
    assert EvensSomewhere(g, h);
    EvenedIsBalanced(g, h, n);
  }
}
