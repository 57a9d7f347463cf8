/** A simplification pass: what its finders offer at a node, and the graphs it goes through. */
module Passes {
  import opened Graphs
  import opened Sets
  import opened Traces
  import opened CycleSearch
  import opened Regions
  import opened Contraction
  import opened ControlState
  import opened SimpleRegions
  import opened Enclosures
  import opened Bottleneck
  import opened Flow
  import opened Runs

  // ----- what there is to contract at a node -----

  function WeightsOf(body: map<Edge, Body>): Weights {
    map e | e in body :: body[e].weight
  }

  /** The finders can be called. */
  ghost predicate Findable(g: GraphState, n: nat) {
    Mirrored(LinksOf(g)) && Weighted(LinksOf(g), WeightsOf(g.body)) && n in g.succs
  }

  ghost predicate ChainAt(g: GraphState, n: nat)
    requires Findable(g, n)
  {
    exists m :: Chained(LinksOf(g), WeightsOf(g.body), n, m)
  }

  ghost predicate DiamondAt(g: GraphState, n: nat)
    requires Findable(g, n)
  {
    exists mids, t :: Diamond(LinksOf(g), n, mids, t)
  }

  /** No enclosed region from the same node has fewer nodes. */
  ghost predicate Smallest(L: Linked, sub: Net, n: nat, t: nat)
    requires Mirrored(L) && n in L.preds
  {
    Enclosed(L, n, sub, t) && forall R, x :: Enclosed(L, n, R, x) ==> sub.nodes <= R.nodes
  }

  /** The bottleneck search finds nothing: no round closes in time, so any region there is to find is
      too large. */
  ghost predicate NoneFound(L: Linked, n: nat)
    requires Mirrored(L) && n in L.preds
  {
    NoneEnclosed(L, n) && forall k, t :: !InTime(L, n, k, t)
  }

  /** The nodes at which neither a chain nor a diamond starts, nor, after a full search, any region
      worth looking for that is not too large. */
  ghost function Quiet(g: GraphState, full: bool): iset<nat> {
    iset n | Findable(g, n) && !ChainAt(g, n) && !DiamondAt(g, n) && (full ==> NoneFound(LinksOf(g), n))
  }

  /** What a pass contracts at a node: the whole chain, or else the diamond, or else, after a full
      search, the smallest enclosed region. */
  ghost predicate Offers(g: GraphState, full: bool, n: nat, sub: Net, t: nat) {
    && Findable(g, n) && Region(g.edges, sub, n, t)
    && if ChainAt(g, n) then WholeChain(LinksOf(g), WeightsOf(g.body), sub, n, t)
       else if DiamondAt(g, n) then Diamond(LinksOf(g), n, sub.nodes - {n, t}, t)
       else full && Smallest(LinksOf(g), sub, n, t)
  }

  lemma ChainOffered(g: GraphState, full: bool, n: nat, sub: Net, t: nat)
    requires Findable(g, n) && EdgesOf(LinksOf(g)) == g.edges
    requires exists m :: Chained(LinksOf(g), WeightsOf(g.body), n, m)
    requires WholeChain(LinksOf(g), WeightsOf(g.body), sub, n, t)
    ensures Offers(g, full, n, sub, t)
  {
  }

  lemma DiamondOffered(g: GraphState, full: bool, n: nat, sub: Net, t: nat)
    requires Findable(g, n) && EdgesOf(LinksOf(g)) == g.edges && Region(g.edges, sub, n, t)
    requires !exists m :: Chained(LinksOf(g), WeightsOf(g.body), n, m)
    requires Diamond(LinksOf(g), n, sub.nodes - {n, t}, t)
    ensures Offers(g, full, n, sub, t)
  {
    assert DiamondAt(g, n);
  }

  lemma SmallestOffered(g: GraphState, n: nat, sub: Net, t: nat)
    requires Findable(g, n) && EdgesOf(LinksOf(g)) == g.edges && Smallest(LinksOf(g), sub, n, t)
    requires !exists m :: Chained(LinksOf(g), WeightsOf(g.body), n, m)
    requires !exists mids, x :: Diamond(LinksOf(g), n, mids, x)
    ensures Offers(g, true, n, sub, t)
  {
  }

  lemma NothingOffered(g: GraphState, full: bool, n: nat)
    requires Findable(g, n)
    requires !exists m :: Chained(LinksOf(g), WeightsOf(g.body), n, m)
    requires !exists mids, x :: Diamond(LinksOf(g), n, mids, x)
    requires full ==> NoneFound(LinksOf(g), n)
    ensures n in Quiet(g, full)
  {
  }

  /** Where probabilities are shares of frequencies, a node with one way on is certain to take it: a
      chain is a matter of edges alone. */
  lemma CertainInNormal(g: GraphState, n: nat, m: nat)
    requires Valid(g) && Normal(g) && n in g.nodes && Findable(g, n)
    ensures Chained(LinksOf(g), WeightsOf(g.body), n, m) <==>
      m in g.nodes && Region(g.edges, Net({n, m}, {Edge(n, m)}), n, m)
      && |g.succs[m]| == 1 && Edge(m, n) !in g.edges && g.preds[n] != {}
  {
    ValidIsMirrored(g);
    if m in g.nodes && Region(g.edges, Net({n, m}, {Edge(n, m)}), n, m) {
      PairLinks(LinksOf(g), n, m);
      OnlyWayIsCertain(g, n, Edge(n, m));
    }
  }

  lemma OnlyWayIsCertain(g: GraphState, n: nat, e: Edge)
    requires Valid(g) && Normal(g) && n in g.nodes && g.succs[n] == {e} && e in g.edges
    ensures g.body[e].weight == 1.0
  {
    OutgoingSumToOne(g, n);
    WeightOne(e, g.body);
  }

  // ----- the graphs a pass goes through -----

  /** A region that was offered at n is contracted. */
  ghost predicate Contracts(full: bool, r: Run, r': Run, n: nat, sub: Net, t: nat, vn: nat) {
    && Offers(r.g, full, n, sub, t)
    && RegionStep(r.g, r'.g, sub, n, t, vn) && r'.home == Move(r.home, sub.nodes, vn)
  }

  ghost predicate ContractsSomewhere(full: bool, r: Run, r': Run) {
    exists n, sub, t, vn :: Contracts(full, r, r', n, sub, t, vn)
  }

  /** One offered region is contracted. */
  ghost function PassStep(full: bool): (Run, Run) -> bool {
    (r: Run, r': Run) => ContractsSomewhere(full, r, r')
  }

  /** There is nothing to contract at the node. */
  ghost function QuietAt(full: bool, n: nat): Run -> bool {
    (r: Run) => n in Quiet(r.g, full)
  }

  /** The graphs of a whole pass from r to r': at the end, every node reached from where the first
      node then is was left alone with nothing to contract at it. */
  ghost predicate WholePass(full: bool, root: nat, s: seq<Run>, r: Run, r': Run) {
    && Leads(PassStep(full), s, r, r') && root in r'.home
    && forall n :: Reach(r'.g.edges, r'.home[root], n) ==> Once(s, QuietAt(full, n))
  }

  // ----- the worklist -----

  function Uncovered(S: set<Edge>, covered: set<nat>): set<nat> {
    set e | e in S && e.snk !in covered :: e.snk
  }

  lemma OneFewer(S: set<nat>, covered: set<nat>, x: nat)
    requires x in S && x !in covered
    ensures |S - (covered + {x})| < |S - covered|
  {
    assert S - covered == (S - (covered + {x})) + {x};
  }

  /** The nodes covered, those waiting in the queue, and the graph in between. */
  datatype Worklist = Worklist(covered: set<nat>, waiting: set<nat>)

  /** Covered nodes lead to covered and to waiting ones, and so does where the first node is now. */
  ghost predicate Leading(g: GraphState, first: nat, w: Worklist) {
    && first in w.covered + w.waiting
    && (forall n {:trigger n in w.covered} :: n in w.covered ==> n < g.nextNID)
    && (forall n {:trigger n in w.waiting} :: n in w.waiting ==> n < g.nextNID)
    && (forall e {:trigger e in g.edges} :: e in g.edges && e.src in w.covered ==> e.snk in w.covered + w.waiting)
  }

  /** Covered nodes still in the graph had nothing to contract when they were covered. */
  ghost predicate LeftAlone(full: bool, s: seq<Run>, nodes: set<nat>, covered: set<nat>) {
    forall n {:trigger n in covered} :: n in covered && n in nodes ==> Once(s, QuietAt(full, n))
  }

  /** What is known when a pass has gone through the graphs s, from r0 to r. */
  ghost function Worklists(full: bool, root: nat, s: seq<Run>, r0: Run, r: Run): iset<Worklist> {
    iset w: Worklist | && Leads(PassStep(full), s, r0, r) && root in r.home
                       && Leading(r.g, r.home[root], w) && LeftAlone(full, s, r.g.nodes, w.covered)
  }

  lemma PassStarts(full: bool, root: nat, r: Run)
    requires Valid(r.g) && root in r.home && r.home[root] in r.g.nodes
    ensures Worklist({}, Elems([r.home[root]])) in Worklists(full, root, [r], r, r)
  {
    assert Elems([r.home[root]]) == {r.home[root]};
    LeadsOne(PassStep(full), r);
  }

  lemma PassPops(full: bool, root: nat, s: seq<Run>, r0: Run, r: Run, covered: set<nat>, x: nat, rest: set<nat>)
    requires Valid(r.g) && Worklist(covered, {x} + rest) in Worklists(full, root, s, r0, r)
    requires x !in r.g.nodes || x in covered
    ensures Worklist(covered + {x}, rest) in Worklists(full, root, s, r0, r)
  {
    assert x in {x} + rest;
    assert covered + {x} + rest == covered + ({x} + rest);
  }

  lemma SuccessorsWait(g: GraphState, first: nat, covered: set<nat>, x: nat, rest: set<nat>, more: set<nat>)
    requires Valid(g) && x in g.nodes && Leading(g, first, Worklist(covered, {x} + rest))
    requires {x} + more == {x} + rest + Uncovered(OutEdges(g.edges, x), covered + {x})
    ensures Leading(g, first, Worklist(covered + {x}, more))
  {
    var after := covered + {x};
    forall e | e in g.edges && e.src in after ensures e.snk in after + more {
      if e.src == x {
        assert e in OutEdges(g.edges, x);
        assert e.snk in after || e.snk in {x} + more;
      } else {
        assert e.snk in covered + ({x} + rest);
        assert e.snk in covered || e.snk in {x} + more;
      }
    }
    forall m | m in more ensures m < g.nextNID {
      if m !in {x} + rest {
        assert m in Uncovered(OutEdges(g.edges, x), after);
        assert m in g.nodes;
      }
    }
    assert first in covered || first in {x} + more;
  }

  /** A node with nothing to contract is covered, and its successors wait. */
  lemma PassPushes(full: bool, root: nat, s: seq<Run>, r0: Run, r: Run, covered: set<nat>, x: nat, rest: set<nat>,
                   more: set<nat>)
    requires Valid(r.g) && x in r.g.nodes && x in Quiet(r.g, full)
    requires Worklist(covered, {x} + rest) in Worklists(full, root, s, r0, r)
    requires {x} + more == {x} + rest + Uncovered(OutEdges(r.g.edges, x), covered + {x})
    ensures Worklist(covered + {x}, more) in Worklists(full, root, s, r0, r)
  {
    SuccessorsWait(r.g, r.home[root], covered, x, rest, more);
    OnceLast(s, QuietAt(full, x));
  }

  /** After a contraction, the new node waits in place of the node where the region starts. */
  lemma LeadsAround(g: GraphState, h: GraphState, sub: Net, s: nat, t: nat, vn: nat, first: nat, covered: set<nat>,
                    rest: set<nat>)
    requires RegionStep(g, h, sub, s, t, vn) && Leading(g, first, Worklist(covered, {s} + rest))
    ensures Leading(h, Rep(sub.nodes, vn, first), Worklist(covered + sub.nodes, {vn} + rest))
  {
    FreshId(g);
    forall q | q in h.edges && q.src in covered + sub.nodes ensures q.snk in covered + sub.nodes + ({vn} + rest) {
      var e := QuotientEdge(g.edges, sub, vn, q);
      assert e in g.edges && q == RepEdge(sub.nodes, vn, e);
      assert q.src in h.nodes;
    }
  }

  lemma LeftAloneStill(full: bool, s: seq<Run>, r: Run, nodes: set<nat>, covered: set<nat>, N: set<nat>, vn: nat)
    requires LeftAlone(full, s, nodes, covered) && vn !in covered + N && r.g.nodes == nodes - N + {vn}
    ensures LeftAlone(full, s + [r], r.g.nodes, covered + N)
  {
    forall n | n in covered + N && n in r.g.nodes ensures Once(s + [r], QuietAt(full, n)) {
      assert n in covered;
      OnceStill(s, QuietAt(full, n), r);
    }
  }

  lemma WaitsInstead(full: bool, root: nat, r: Run, r': Run, covered: set<nat>, rest: set<nat>, n: nat, sub: Net,
                     t: nat, vn: nat)
    requires Contracts(full, r, r', n, sub, t, vn)
    requires root in r.home && Leading(r.g, r.home[root], Worklist(covered, {n} + rest))
    ensures root in r'.home && Leading(r'.g, r'.home[root], Worklist(covered + sub.nodes, {vn} + rest))
    ensures vn !in covered + sub.nodes && r'.g.nodes == r.g.nodes - sub.nodes + {vn}
  {
    LeadsAround(r.g, r'.g, sub, n, t, vn, r.home[root], covered, rest);
    FreshId(r.g);
  }

  lemma ContractsIsStep(full: bool, r: Run, r': Run, n: nat, sub: Net, t: nat, vn: nat)
    requires Contracts(full, r, r', n, sub, t, vn)
    ensures PassStep(full)(r, r')
  {
    assert ContractsSomewhere(full, r, r');
  }

  lemma PassMoves(full: bool, root: nat, s: seq<Run>, r0: Run, r: Run, r': Run, covered: set<nat>, w: Worklist,
                  N: set<nat>, vn: nat)
    requires Leads(PassStep(full), s, r0, r) && LeftAlone(full, s, r.g.nodes, covered) && PassStep(full)(r, r')
    requires root in r'.home && Leading(r'.g, r'.home[root], w) && w.covered == covered + N
    requires vn !in w.covered && r'.g.nodes == r.g.nodes - N + {vn}
    ensures w in Worklists(full, root, s + [r'], r0, r')
  {
    LeadsOn(PassStep(full), s, r0, r, r');
    LeftAloneStill(full, s, r', r.g.nodes, covered, N, vn);
  }

  lemma PassContracts(full: bool, root: nat, s: seq<Run>, r0: Run, r: Run, r': Run, covered: set<nat>, rest: set<nat>,
                      n: nat, sub: Net, t: nat, vn: nat)
    requires Worklist(covered, {n} + rest) in Worklists(full, root, s, r0, r)
    requires Contracts(full, r, r', n, sub, t, vn)
    ensures Worklist(covered + sub.nodes, {vn} + rest) in Worklists(full, root, s + [r'], r0, r')
  {
    ContractsIsStep(full, r, r', n, sub, t, vn);
    WaitsInstead(full, root, r, r', covered, rest, n, sub, t, vn);
    var w := Worklist(covered + sub.nodes, {vn} + rest);
    PassMoves(full, root, s, r0, r, r', covered, w, sub.nodes, vn);
  }

  /** When nothing waits, the pass is over. */
  lemma PassEnds(full: bool, root: nat, s: seq<Run>, r0: Run, r: Run, covered: set<nat>)
    requires Valid(r.g) && root in r.home && r.home[root] in r.g.nodes
    requires Worklist(covered, {}) in Worklists(full, root, s, r0, r)
    ensures WholePass(full, root, s, r0, r)
  {
    var first := r.home[root];
    forall n | Reach(r.g.edges, first, n) ensures Once(s, QuietAt(full, n)) {
      ReachInduction(r.g.edges, first, n, (x: nat) => x in covered);
      ReachInNodes(NetOf(r.g), first, n);
    }
  }

  /** Nothing was contracted: nothing could be. */
  lemma QuietPass(full: bool, root: nat, r: Run)
    requires WholePass(full, root, [r], r, r)
    ensures forall n :: Reach(r.g.edges, r.home[root], n) ==> n in Quiet(r.g, full)
  {
    forall n | Reach(r.g.edges, r.home[root], n) ensures n in Quiet(r.g, full) {
      OnceOfOne(r, QuietAt(full, n));
    }
  }
}
