/** The two fixed-depth finders: TrivialTransforms (serial chains) and
    BranchToSelectTransforms (one layer of nodes between an entrance and an exit). */
module SimpleRegions {
  import opened Graphs
  import opened Sets
  import opened CycleSearch
  import opened Regions

  type Weights = map<Edge, real>

  const CERTAIN: real := 0.9999

  // ----- serial chains -----

  predicate Weighted(L: Linked, w: Weights) {
    forall n, e {:trigger e in L.succs[n]} :: n in L.succs && e in L.succs[n] ==> e in w
  }

  /** The merge test on one node: its only successor, when that is certain, has no other
      predecessor, one successor, and does not lead straight back. */
  function Next(L: Linked, w: Weights, n: nat): (r: Option<nat>)
    requires Mirrored(L) && Weighted(L, w) && n in L.succs
    ensures r.Some? ==>
              && r.value in L.succs && L.succs[n] == {Edge(n, r.value)} == L.preds[r.value]
              && Edge(r.value, n) !in L.succs[r.value]
  {
    if |L.succs[n]| == 1 then
      var e :| e in L.succs[n];
      assert L.succs[n] == {e} by { Only(L.succs[n], e); }
      var sink := e.snk;
      if w[e] > CERTAIN
         && |L.preds[sink]| == 1 && |L.succs[sink]| == 1
         && Edge(sink, n) !in L.succs[sink]
         && L.preds[n] != {}
      then
        assert L.preds[sink] == {e} by { Only(L.preds[sink], e); }
        Some(sink)
      else None
    else None
  }

  /** The node reached after k merges. */
  function Merged(L: Linked, w: Weights, n: nat, k: nat): (r: Option<nat>)
    requires Mirrored(L) && Weighted(L, w) && n in L.succs
    ensures r.Some? ==> r.value in L.succs
  {
    if k == 0 then Some(n)
    else
      var m := Merged(L, w, n, k - 1);
      if m.None? then None else Next(L, w, m.value)
  }

  /** The merges lead back to where they started. */
  ghost predicate OnRing(L: Linked, w: Weights, n: nat)
    requires Mirrored(L) && Weighted(L, w) && n in L.succs
  {
    exists k: nat :: k >= 1 && Merged(L, w, n, k) == Some(n)
  }

  lemma MergedAdd(L: Linked, w: Weights, n: nat, i: nat, j: nat)
    requires Mirrored(L) && Weighted(L, w) && n in L.succs && Merged(L, w, n, i).Some?
    ensures Merged(L, w, n, i + j) == Merged(L, w, Merged(L, w, n, i).value, j)
  {
    if j > 0 {
      MergedAdd(L, w, n, i, j - 1);
    }
  }

  /** On a ring the merge test never fails: the search would go round for ever. */
  lemma RingNeverEnds(L: Linked, w: Weights, n: nat, k: nat)
    requires Mirrored(L) && Weighted(L, w) && n in L.succs && OnRing(L, w, n)
    ensures Merged(L, w, n, k).Some?
  {
    var m: nat :| m >= 1 && Merged(L, w, n, m) == Some(n);
    if k < m {
      MergedBefore(L, w, n, k, m);
    } else {
      RingNeverEnds(L, w, n, k - m);
      MergedAdd(L, w, n, m, k - m);
    }
  }

  lemma MergedBefore(L: Linked, w: Weights, n: nat, k: nat, m: nat)
    requires Mirrored(L) && Weighted(L, w) && n in L.succs && k <= m && Merged(L, w, n, m).Some?
    ensures Merged(L, w, n, k).Some?
  {
    if k < m {
      MergedBefore(L, w, n, k, m - 1);
    }
  }

  /** A node that can reach a node without successors is on no ring. */
  lemma LeavesRing(L: Linked, w: Weights, n: nat, last: nat)
    requires Mirrored(L) && Weighted(L, w) && n in L.succs
    requires Reach(EdgesOf(L), n, last) && last in L.succs && L.succs[last] == {}
    ensures !OnRing(L, w, n)
  {
    if OnRing(L, w, n) {
      var P := (x: nat) => exists k: nat :: Merged(L, w, n, k) == Some(x);
      assert Merged(L, w, n, 0) == Some(n);
      forall e | e in EdgesOf(L) && P(e.src) ensures P(e.snk) {
        var k: nat :| Merged(L, w, n, k) == Some(e.src);
        RingNeverEnds(L, w, n, k + 1);
        assert e in L.succs[e.src];
        assert Merged(L, w, n, k + 1) == Some(e.snk);
      }
      ReachInduction(EdgesOf(L), n, last, P);
      var k: nat :| Merged(L, w, n, k) == Some(last);
      RingNeverEnds(L, w, n, k + 1);
    }
  }

  /** Two serial nodes are a region. */
  lemma PairIsRegion(L: Linked, w: Weights, s: nat, t: nat)
    requires Mirrored(L) && Weighted(L, w) && s in L.succs && Next(L, w, s) == Some(t)
    ensures s != t && Region(EdgesOf(L), Net({s, t}, {Edge(s, t)}), s, t)
  {
    var I := {Edge(s, t)};
    assert s != t;
    RankedIsAcyclic(I, (x: nat) => if x == s then 0 else 1);
    ReachRefl(I, s);
    ReachRefl(I, t);
    ReachStep(I, Edge(s, t));
    ChainEdges(L, w, s, t);
  }

  lemma ChainEdges(L: Linked, w: Weights, s: nat, t: nat)
    requires Mirrored(L) && Weighted(L, w) && s in L.succs && Next(L, w, s) == Some(t)
    ensures Edge(s, t) in EdgesOf(L)
    ensures forall e {:trigger e in EdgesOf(L)} :: e in EdgesOf(L) && (e.src == s || e.snk == t) ==> e == Edge(s, t)
  {
    forall e | e in EdgesOf(L) && (e.src == s || e.snk == t) ensures e == Edge(s, t) {
      assert e in L.succs[e.src] && e in L.preds[e.snk];
    }
  }

  /** A chain region grows by the node its exit merges with. */
  lemma ExtendRegion(L: Linked, w: Weights, sub: Net, s: nat, t: nat, t': nat)
    requires Mirrored(L) && Weighted(L, w) && t in L.succs && Next(L, w, t) == Some(t')
    requires Region(EdgesOf(L), sub, s, t) && t' !in sub.nodes
    ensures Region(EdgesOf(L), Net(sub.nodes + {t'}, sub.edges + {Edge(t, t')}), s, t')
  {
    ChainEdges(L, w, t, t');
    AddedTailAcyclic(sub, t, t');
    AddedTailReached(EdgesOf(L), sub, s, t, t');
    AddedTailBoundary(L, w, sub, s, t, t');
  }

  lemma AddedTailBoundary(L: Linked, w: Weights, sub: Net, s: nat, t: nat, t': nat)
    requires Mirrored(L) && Weighted(L, w) && t in L.succs && Next(L, w, t) == Some(t')
    requires Region(EdgesOf(L), sub, s, t) && t' !in sub.nodes
    ensures var N, J := sub.nodes + {t'}, sub.edges + {Edge(t, t')};
      && (forall e {:trigger e in EdgesOf(L)} :: e in EdgesOf(L) && e.snk in N && e !in J ==> e.snk == s)
      && (forall e {:trigger e in EdgesOf(L)} :: e in EdgesOf(L) && e.src in N && e !in J ==> e.src == t')
  {
    ChainEdges(L, w, t, t');
  }

  lemma AddedTailReached(E: set<Edge>, sub: Net, s: nat, t: nat, t': nat)
    requires Region(E, sub, s, t)
    ensures forall n :: n in sub.nodes + {t'} ==>
      Reach(sub.edges + {Edge(t, t')}, s, n) && Reach(sub.edges + {Edge(t, t')}, n, t')
  {
    var I, e' := sub.edges, Edge(t, t');
    var J := I + {e'};
    ReachMono(I, J, s, t);
    ReachSnoc(J, s, e');
    ReachRefl(J, t');
    forall n | n in sub.nodes ensures Reach(J, s, n) && Reach(J, n, t') {
      ReachMono(I, J, s, n);
      ReachMono(I, J, n, t);
      ReachSnoc(J, n, e');
    }
  }

  lemma AddedTailAcyclic(sub: Net, t: nat, t': nat)
    requires WellFormed(sub) && !Cyclic(sub.edges) && t in sub.nodes && t' !in sub.nodes
    ensures !Cyclic(sub.edges + {Edge(t, t')})
  {
    var I, J := sub.edges, sub.edges + {Edge(t, t')};
    if a :| ReachPlus(J, a, a) {
      var e :| e in J && e.src == a && Reach(J, e.snk, a);
      assert a in sub.nodes;
      ReachBackInduction(J, e.snk, a, (x: nat) => x in sub.nodes && Reach(I, x, a)) by {
        ReachRefl(I, a);
        forall f | f in J && f.snk in sub.nodes && Reach(I, f.snk, a) ensures f.src in sub.nodes && Reach(I, f.src, a) {
          ReachCons(I, f, a);
        }
      }
      assert ReachPlus(I, a, a);
    }
  }

  /** A node already in the chain that the exit merges with is the chain's first node. */
  lemma MeetsOnlyItsStart(L: Linked, w: Weights, sub: Net, s: nat, t: nat, t': nat)
    requires Mirrored(L) && Weighted(L, w) && t in L.succs && Next(L, w, t) == Some(t')
    requires Region(EdgesOf(L), sub, s, t) && t' in sub.nodes
    ensures t' == s
  {
    if t' != s {
      ReachIsPlus(sub.edges, s, t');
      var e := PlusLast(sub.edges, s, t');
      ChainEdges(L, w, t, t');
      ExitIsLast(EdgesOf(L), sub, s, t, e);
    }
  }

  // ----- what the merge test means -----

  /** m is merged with n: the two alone are a region, m has one way on that does not lead back, and n
      is entered and certain to go on to m. */
  ghost predicate Chained(L: Linked, w: Weights, n: nat, m: nat)
    requires Mirrored(L) && Weighted(L, w)
  {
    && n in L.succs && m in L.succs
    && Region(EdgesOf(L), Net({n, m}, {Edge(n, m)}), n, m)
    && |L.succs[m]| == 1 && Edge(m, n) !in EdgesOf(L)
    && L.preds[n] != {} && Edge(n, m) in w && w[Edge(n, m)] > CERTAIN
  }

  lemma NextIsChained(L: Linked, w: Weights, n: nat, m: nat)
    requires Mirrored(L) && Weighted(L, w) && n in L.succs
    ensures Next(L, w, n) == Some(m) <==> Chained(L, w, n, m)
  {
    if Next(L, w, n) == Some(m) {
      PairIsRegion(L, w, n, m);
      ChainEdges(L, w, n, m);
    } else if Chained(L, w, n, m) {
      PairLinks(L, n, m);
    }
  }

  /** Two nodes that are a region have no other edge between their one way in and one way out. */
  lemma PairLinks(L: Linked, n: nat, m: nat)
    requires Mirrored(L) && n in L.succs && m in L.succs
    requires Region(EdgesOf(L), Net({n, m}, {Edge(n, m)}), n, m)
    ensures L.succs[n] == {Edge(n, m)} == L.preds[m]
  {
    assert Edge(n, m) in EdgesOf(L);
    forall e | e in L.succs[n] ensures e == Edge(n, m) {
      assert e in EdgesOf(L);
    }
    forall e | e in L.preds[m] ensures e == Edge(n, m) {
      assert e in L.succs[e.src] && e in EdgesOf(L);
    }
  }

  lemma NothingChained(L: Linked, w: Weights, n: nat)
    requires Mirrored(L) && Weighted(L, w) && n in L.succs
    ensures Next(L, w, n).None? <==> forall m :: !Chained(L, w, n, m)
  {
    forall m: nat ensures Next(L, w, n) == Some(m) <==> Chained(L, w, n, m) {
      NextIsChained(L, w, n, m);
    }
  }

  ghost predicate ChainedAt(L: Linked, w: Weights, path: seq<nat>, i: int)
    requires Mirrored(L) && Weighted(L, w)
  {
    0 <= i < |path| - 1 ==> Chained(L, w, path[i], path[i + 1])
  }

  ghost predicate ChainPath(L: Linked, w: Weights, path: seq<nat>, s: nat, t: nat)
    requires Mirrored(L) && Weighted(L, w)
  {
    && |path| > 0 && path[0] == s && path[|path| - 1] == t
    && forall i {:trigger ChainedAt(L, w, path, i)} :: ChainedAt(L, w, path, i)
  }

  /** The whole chain from s: a region of nodes each merged with the one before, the last of which
      merges no further. */
  ghost predicate WholeChain(L: Linked, w: Weights, sub: Net, s: nat, t: nat)
    requires Mirrored(L) && Weighted(L, w)
  {
    && Region(EdgesOf(L), sub, s, t) && t in L.succs
    && (exists path :: ChainPath(L, w, path, s, t) && sub.nodes == Elems(path))
    && forall m :: !Chained(L, w, t, m)
  }

  lemma PathGrows(L: Linked, w: Weights, path: seq<nat>, s: nat, t: nat, t': nat)
    requires Mirrored(L) && Weighted(L, w) && ChainPath(L, w, path, s, t) && Chained(L, w, t, t')
    ensures ChainPath(L, w, path + [t'], s, t') && Elems(path + [t']) == Elems(path) + {t'}
  {
    forall i ensures ChainedAt(L, w, path + [t'], i) {
      assert ChainedAt(L, w, path, i);
    }
  }

  // ----- the search -----

  /** The nodes merged so far, in order, and where the chain ends after k merges. */
  datatype Chain = Chain(sub: Net, path: seq<nat>, end: nat, k: nat)

  ghost function Chains(L: Linked, w: Weights, s: nat): iset<Chain>
    requires Mirrored(L) && Weighted(L, w) && s in L.succs
  {
    iset c: Chain |
      && c.end in L.succs && c.sub.nodes <= L.succs.Keys && Merged(L, w, s, c.k) == Some(c.end)
      && ChainPath(L, w, c.path, s, c.end)
      && (if c.k == 0 then c.sub == EmptyNet && c.end == s && c.path == [s]
          else Region(EdgesOf(L), c.sub, s, c.end) && Next(L, w, s).Some? && c.sub.nodes == Elems(c.path))
  }

  lemma ChainStarts(L: Linked, w: Weights, s: nat)
    requires Mirrored(L) && Weighted(L, w) && s in L.succs
    ensures Chain(EmptyNet, [s], s, 0) in Chains(L, w, s)
  {
  }

  /** The chain with one more node at its end. */
  ghost function Longer(c: Chain, sink: nat): Chain {
    Chain(Net(c.sub.nodes + {c.end} + {sink}, c.sub.edges + {Edge(c.end, sink)}), c.path + [sink], sink, c.k + 1)
  }

  /** The chains whose nodes are a region. */
  ghost function ChainRegions(L: Linked, s: nat): iset<Chain> {
    iset c: Chain | Region(EdgesOf(L), c.sub, s, c.end)
  }

  /** The chains whose nodes were merged one after the other. */
  ghost function ChainPaths(L: Linked, w: Weights, s: nat): iset<Chain>
    requires Mirrored(L) && Weighted(L, w)
  {
    iset c: Chain | ChainPath(L, w, c.path, s, c.end) && c.sub.nodes == Elems(c.path)
  }

  lemma ChainRegion(L: Linked, w: Weights, c: Chain, s: nat, sink: nat)
    requires Mirrored(L) && Weighted(L, w) && s in L.succs && !OnRing(L, w, s)
    requires c in Chains(L, w, s) && Next(L, w, c.end) == Some(sink)
    ensures sink !in c.sub.nodes && Longer(c, sink) in ChainRegions(L, s)
  {
    assert Merged(L, w, s, c.k + 1) == Some(sink);
    if c.k == 0 {
      PairIsRegion(L, w, c.end, sink);
      assert {} + {c.end} + {sink} == {c.end, sink};
      assert {} + {Edge(c.end, sink)} == {Edge(c.end, sink)};
    } else {
      if sink in c.sub.nodes {
        MeetsOnlyItsStart(L, w, c.sub, s, c.end, sink);
      }
      ExtendRegion(L, w, c.sub, s, c.end, sink);
      assert c.sub.nodes + {c.end} + {sink} == c.sub.nodes + {sink};
    }
  }

  /** The two nodes of a merge are nodes of the graph. */
  lemma MergedIsNode(L: Linked, w: Weights, n: nat, sink: nat)
    requires Mirrored(L) && Weighted(L, w) && n in L.succs && Next(L, w, n) == Some(sink)
    ensures sink in L.succs
  {
    ChainEdges(L, w, n, sink);
  }

  lemma ChainNodes(L: Linked, w: Weights, c: Chain, s: nat, sink: nat)
    requires Mirrored(L) && Weighted(L, w) && s in L.succs
    requires c in Chains(L, w, s) && Next(L, w, c.end) == Some(sink)
    ensures Longer(c, sink) in ChainPaths(L, w, s)
  {
    NextIsChained(L, w, c.end, sink);
    PathGrows(L, w, c.path, s, c.end, sink);
    assert c.path[|c.path| - 1] == c.end;
    assert c.k == 0 ==> Elems([s]) == {s};
  }

  lemma ChainMade(L: Linked, w: Weights, s: nat, c: Chain)
    requires Mirrored(L) && Weighted(L, w) && s in L.succs && c.k > 0 && Next(L, w, s).Some?
    requires c.end in L.succs && c.sub.nodes <= L.succs.Keys && Merged(L, w, s, c.k) == Some(c.end)
    requires c in ChainRegions(L, s) && c in ChainPaths(L, w, s)
    ensures c in Chains(L, w, s)
  {
  }

  lemma ChainGrows(L: Linked, w: Weights, c: Chain, s: nat, sink: nat)
    requires Mirrored(L) && Weighted(L, w) && s in L.succs && !OnRing(L, w, s)
    requires c in Chains(L, w, s) && Next(L, w, c.end) == Some(sink)
    ensures sink !in c.sub.nodes && sink in L.succs && Longer(c, sink) in Chains(L, w, s)
  {
    var d := Longer(c, sink);
    ChainRegion(L, w, c, s, sink);
    ChainNodes(L, w, c, s, sink);
    ChainGoesOn(L, w, c, s, sink, d);
    StaysChained(L, w, c, s);
    ChainMade(L, w, s, d);
  }

  lemma MergedNext(L: Linked, w: Weights, n: nat, k: nat, m: nat, sink: nat)
    requires Mirrored(L) && Weighted(L, w) && n in L.succs && m in L.succs
    requires Merged(L, w, n, k) == Some(m) && Next(L, w, m) == Some(sink)
    ensures Merged(L, w, n, k + 1) == Some(sink)
  {
  }

  lemma StaysChained(L: Linked, w: Weights, c: Chain, s: nat)
    requires Mirrored(L) && Weighted(L, w) && s in L.succs && c in Chains(L, w, s) && Next(L, w, c.end).Some?
    ensures Next(L, w, s).Some?
  {
  }

  lemma ChainGoesOn(L: Linked, w: Weights, c: Chain, s: nat, sink: nat, d: Chain)
    requires Mirrored(L) && Weighted(L, w) && s in L.succs && c in Chains(L, w, s) && Next(L, w, c.end) == Some(sink)
    requires d.k == c.k + 1 && d.end == sink && d.sub.nodes == c.sub.nodes + {c.end} + {sink}
    ensures Merged(L, w, s, d.k) == Some(d.end)
    ensures d.sub.nodes <= L.succs.Keys && d.end in L.succs
  {
    MergedIsNode(L, w, c.end, sink);
    MergedNext(L, w, s, c.k, c.end, sink);
  }

  lemma ChainEnds(L: Linked, w: Weights, c: Chain, s: nat)
    requires Mirrored(L) && Weighted(L, w) && s in L.succs && c in Chains(L, w, s) && Next(L, w, c.end).None?
    ensures c.sub != EmptyNet <==> exists m :: Chained(L, w, s, m)
    ensures c.sub != EmptyNet ==> WholeChain(L, w, c.sub, s, c.end)
  {
    NothingChained(L, w, s);
    NothingChained(L, w, c.end);
  }

  /** TrivialTransforms: merge forward while the test holds. */
  method TrivialTransforms(L: Linked, w: Weights, sourceNode: nat) returns (sub: Net, ghost sink: nat)
    requires Mirrored(L) && Weighted(L, w) && sourceNode in L.succs
    requires !OnRing(L, w, sourceNode)
    ensures sub != EmptyNet <==> exists m :: Chained(L, w, sourceNode, m)
    ensures sub != EmptyNet ==> WholeChain(L, w, sub, sourceNode, sink)
  {
    sub := EmptyNet;
    var source := sourceNode;
    var inserted := true;
    ghost var path, k: nat := [source], 0;
    ChainStarts(L, w, sourceNode);
    while inserted
      invariant Chain(sub, path, source, k) in Chains(L, w, sourceNode) && source in L.succs
      invariant sub.nodes <= L.succs.Keys
      invariant !inserted ==> Next(L, w, source).None?
      decreases L.succs.Keys - sub.nodes, inserted
    {
      inserted := false;
      var next := Next(L, w, source);
      if next.Some? {
        var sink := next.value;
        ChainGrows(L, w, Chain(sub, path, source, k), sourceNode, sink);
        sub := Net(sub.nodes + {source} + {sink}, sub.edges + {Edge(source, sink)});
        source := sink;
        path, k := path + [sink], k + 1;
        inserted := true;
      }
    }
    sink := source;
    ChainEnds(L, w, Chain(sub, path, source, k), sourceNode);
  }

  // ----- branches that meet again -----

  /** The nodes a node leads to. */
  function Heads(L: Linked, n: nat): (r: set<nat>)
    requires Mirrored(L) && n in L.succs
    ensures forall m {:trigger m in r} :: m in r <==> Edge(n, m) in L.succs[n]
  {
    set e | e in L.succs[n] :: e.snk
  }

  /** The nodes that lead to a node. */
  function Tails(L: Linked, n: nat): (r: set<nat>)
    requires Mirrored(L) && n in L.preds
    ensures forall m {:trigger m in r} :: m in r <==> Edge(m, n) in L.preds[n]
  {
    set e | e in L.preds[n] :: e.src
  }

  /** An entrance s, one layer of nodes, and an exit t where they meet; s may also lead
      straight to t. */
  ghost predicate Diamond(L: Linked, s: nat, mids: set<nat>, t: nat)
    requires Mirrored(L)
  {
    && s in L.succs && t in L.succs && s != t && mids != {} && s !in mids && t !in mids
    && L.preds[s] != {} && L.succs[t] != {}
    && Heads(L, s) - {t} == mids
    && (forall m :: m in mids ==> m in L.succs && L.preds[m] == {Edge(s, m)} && L.succs[m] == {Edge(m, t)})
    && Tails(L, t) <= mids + {s}
    && t !in Tails(L, s)
  }

  function DiamondNet(L: Linked, s: nat, mids: set<nat>, t: nat): Net
    requires Mirrored(L) && s in L.succs && t in L.succs && mids <= L.succs.Keys
  {
    Net(mids + {s} + {t},
        (set m, e | m in mids && e in L.preds[m] + L.succs[m] :: e) + L.succs[s] + L.preds[t])
  }

  lemma DiamondEdges(L: Linked, s: nat, mids: set<nat>, t: nat)
    requires Mirrored(L) && Diamond(L, s, mids, t)
    ensures var I := DiamondNet(L, s, mids, t).edges;
      && I <= EdgesOf(L)
      && (forall e {:trigger e in I} :: e in I ==> (e.src == s && e.snk in mids + {t}) || (e.src in mids && e.snk == t))
  {
    forall e | e in DiamondNet(L, s, mids, t).edges
      ensures e in EdgesOf(L) && ((e.src == s && e.snk in mids + {t}) || (e.src in mids && e.snk == t))
    {
      if m :| m in mids && e in L.preds[m] + L.succs[m] {
        assert e == Edge(s, m) || e == Edge(m, t);
      } else if e in L.succs[s] {
        assert e.snk in Heads(L, s);
      } else {
        assert e.src in Tails(L, t);
      }
    }
  }

  lemma DiamondOwns(L: Linked, s: nat, mids: set<nat>, t: nat)
    requires Mirrored(L) && Diamond(L, s, mids, t)
    ensures var I := DiamondNet(L, s, mids, t).edges;
      && (forall m :: m in mids ==> Edge(s, m) in I && Edge(m, t) in I)
      && (forall e {:trigger e in EdgesOf(L)} :: e in EdgesOf(L) && (e.src in mids + {s} || e.snk in mids + {t}) ==>
            e in I)
  {
    var I := DiamondNet(L, s, mids, t).edges;
    forall e | e in EdgesOf(L) && (e.src in mids + {s} || e.snk in mids + {t}) ensures e in I {
      assert e in L.succs[e.src] && e in L.preds[e.snk];
    }
    forall m | m in mids ensures Edge(s, m) in I && Edge(m, t) in I {
      assert Edge(s, m) in L.preds[m] && Edge(m, t) in L.succs[m];
    }
  }

  lemma DiamondIsRegion(L: Linked, s: nat, mids: set<nat>, t: nat)
    requires Mirrored(L) && Diamond(L, s, mids, t)
    ensures Region(EdgesOf(L), DiamondNet(L, s, mids, t), s, t)
  {
    var sub := DiamondNet(L, s, mids, t);
    var I := sub.edges;
    DiamondEdges(L, s, mids, t);
    DiamondOwns(L, s, mids, t);
    RankedIsAcyclic(I, (x: nat) => if x == s then 0 else if x == t then 2 else 1);
    var m0 :| m0 in mids;
    forall n | n in sub.nodes ensures Reach(I, s, n) && Reach(I, n, t) {
      ReachRefl(I, n);
      var m := if n in mids then n else m0;
      ReachStep(I, Edge(s, m));
      ReachStep(I, Edge(m, t));
      ReachTrans(I, s, m, t);
    }
  }

  lemma DiamondNodes(L: Linked, s: nat, mids: set<nat>, t: nat, sub: Net)
    requires Mirrored(L) && Diamond(L, s, mids, t) && sub == DiamondNet(L, s, mids, t)
    ensures sub != EmptyNet && Region(EdgesOf(L), sub, s, t) && Diamond(L, s, sub.nodes - {s, t}, t)
  {
    DiamondIsRegion(L, s, mids, t);
    assert sub.nodes - {s, t} == mids;
  }

  /** The exit is the one sink common to every other branch. */
  predicate Common(L: Linked, s: nat, succ: Edge)
    requires Mirrored(L) && s in L.succs && succ in L.succs[s]
  {
    forall neighbor {:trigger neighbor in L.succs[s]} :: neighbor in L.succs[s] && neighbor != succ ==>
      Heads(L, neighbor.snk) <= {succ.snk}
  }

  datatype Found = Missing | Nothing | Exit(exit: nat, mids: set<nat>, mergeCase: bool)

  /** The successors of the source's successors. */
  function Beyond(L: Linked, source: nat): set<nat>
    requires Mirrored(L) && source in L.succs
  {
    set e, f | e in L.succs[source] && f in L.succs[e.snk] :: f.snk
  }

  /** When the search reports a node that is missing from the graph. */
  ghost predicate Lost(nodes: set<nat>, L: Linked, source: nat)
    requires Mirrored(L) && source in L.succs
  {
    && L.preds[source] != {} && L.succs[source] != {}
    && !(Heads(L, source) <= nodes && (|Beyond(L, source)| == 1 ==> Beyond(L, source) <= nodes))
  }

  /** In a diamond without a shortcut everything leads to the exit. */
  lemma WithoutShortcut(L: Linked, s: nat, mids: set<nat>, t: nat)
    requires Mirrored(L) && Diamond(L, s, mids, t) && Edge(s, t) !in L.succs[s]
    ensures Heads(L, s) == mids && Beyond(L, s) == {t} && Edge(s, t) !in L.preds[t]
  {
    assert t !in Heads(L, s);
    var m :| m in mids;
    assert Edge(s, m) in L.preds[m] && Edge(s, m) in L.succs[s] && Edge(m, t) in L.succs[m];
    assert t in Beyond(L, s);
  }

  ghost predicate OnlyCommon(L: Linked, s: nat, e: Edge)
    requires Mirrored(L) && s in L.succs
  {
    forall succ {:trigger succ in L.succs[s]} :: succ in L.succs[s] ==> (Common(L, s, succ) <==> succ == e)
  }

  /** In a diamond with a shortcut the shortcut is the one common exit. */
  lemma WithShortcut(L: Linked, s: nat, mids: set<nat>, t: nat)
    requires Mirrored(L) && Diamond(L, s, mids, t) && Edge(s, t) in L.succs[s]
    ensures |Beyond(L, s)| != 1 && |L.succs[s]| > 1 && OnlyCommon(L, s, Edge(s, t))
  {
    ShortcutCounts(L, s, mids, t);
    var f :| f in L.succs[t];
    forall succ | succ in L.succs[s] ensures Common(L, s, succ) <==> succ == Edge(s, t) {
      if succ == Edge(s, t) {
        ShortcutIsCommon(L, s, mids, t);
      } else {
        OthersAreNot(L, s, mids, t, succ, f);
      }
    }
  }

  lemma ShortcutCounts(L: Linked, s: nat, mids: set<nat>, t: nat)
    requires Mirrored(L) && Diamond(L, s, mids, t) && Edge(s, t) in L.succs[s]
    ensures |Beyond(L, s)| != 1 && |L.succs[s]| > 1
  {
    var m :| m in mids;
    assert Edge(s, m) in L.preds[m] && Edge(s, m) in L.succs[s] && Edge(m, t) in L.succs[m];
    var f :| f in L.succs[t];
    assert f in L.preds[f.snk] && f.snk != t;
    var B := Beyond(L, s);
    assert t in B && f.snk in B;
    if |B| == 1 {
      Only(B, t);
    }
    if |L.succs[s]| == 1 {
      Only(L.succs[s], Edge(s, m));
    }
  }

  lemma ShortcutIsCommon(L: Linked, s: nat, mids: set<nat>, t: nat)
    requires Mirrored(L) && Diamond(L, s, mids, t) && Edge(s, t) in L.succs[s]
    ensures Common(L, s, Edge(s, t))
  {
    forall neighbor | neighbor in L.succs[s] && neighbor != Edge(s, t) ensures Heads(L, neighbor.snk) <= {t} {
      assert neighbor == Edge(s, neighbor.snk) && neighbor.snk in Heads(L, s);
      assert neighbor.snk in mids;
    }
  }

  lemma OthersAreNot(L: Linked, s: nat, mids: set<nat>, t: nat, succ: Edge, f: Edge)
    requires Mirrored(L) && Diamond(L, s, mids, t) && Edge(s, t) in L.succs[s]
    requires succ in L.succs[s] && succ != Edge(s, t) && f in L.succs[t]
    ensures !Common(L, s, succ)
  {
    assert succ == Edge(s, succ.snk) && succ.snk in Heads(L, s) && succ.snk in mids;
    assert f == Edge(t, f.snk) && f.snk in Heads(L, t);
    assert f in L.preds[f.snk];
  }

  /** What FindExit promises about its answer. */
  ghost predicate Candidate(L: Linked, source: nat, exit: nat, mids: set<nat>, mergeCase: bool)
    requires Mirrored(L) && source in L.succs
  {
    && L.preds[source] != {} && exit in L.succs
    && (mids == {} ==> Edge(exit, exit) in L.succs[exit])
    && if mergeCase then mids == Heads(L, source) && Edge(source, exit) !in L.preds[exit] && mids != {}
       else mids == Heads(L, source) - {exit} && Edge(source, exit) in L.succs[source]
  }

  lemma LoneShortcut(L: Linked, s: nat, x: nat)
    requires Mirrored(L) && s in L.succs && Beyond(L, s) == {x}
    requires x in L.succs
    ensures Heads(L, s) - {x} == {} ==> Edge(x, x) in L.succs[x]
  {
    assert x in Beyond(L, s);
    var e, f :| e in L.succs[s] && f in L.succs[e.snk] && f.snk == x;
    assert e == Edge(s, e.snk) && e.snk in Heads(L, s);
    assert f == Edge(e.snk, x);
    assert e.snk == x || e.snk in Heads(L, s) - {x};
  }

  lemma ManyHeads(L: Linked, s: nat, succ: Edge)
    requires Mirrored(L) && s in L.succs && |L.succs[s]| > 1 && succ in L.succs[s]
    ensures Heads(L, s) - {succ.snk} != {}
  {
    var d := L.succs[s] - {succ};
    assert L.succs[s] == d + {succ};
    assert |L.succs[s]| == |d| + 1;
    var e :| e in d;
    assert e == Edge(s, e.snk) && succ == Edge(s, succ.snk);
    assert e.snk in Heads(L, s) - {succ.snk};
  }

  /** The merge case: all branches lead on to one node, which is the exit. */
  method FindMerge(nodes: set<nat>, L: Linked, source: nat, x: nat) returns (r: Found)
    requires Mirrored(L) && source in L.succs && L.preds[source] != {} && Heads(L, source) != {}
    requires Beyond(L, source) == {x}
    ensures r.Missing? <==> x !in nodes
    ensures r.Exit? ==> Candidate(L, source, r.exit, r.mids, r.mergeCase)
    ensures !r.Missing? ==> r.Exit? && r.exit == x
    ensures r.Exit? && Edge(source, x) !in L.succs[source] ==> r.mids == Heads(L, source)
  {
    if x !in nodes {
      return Missing;
    }
    var midNodes := Heads(L, source);
    if Edge(source, x) in L.preds[x] {
      LoneShortcut(L, source, x);
      return Exit(x, midNodes - {x}, false);
    }
    return Exit(x, midNodes, true);
  }

  /** How the search picked its answer: the one node all branches lead on to, or else the sink
      of a branch common to all others. */
  ghost predicate Picked(L: Linked, source: nat, r: Found)
    requires Mirrored(L) && source in L.succs
  {
    match r
    case Missing => true
    case Nothing =>
      L.preds[source] == {} || L.succs[source] == {}
      || (|Beyond(L, source)| != 1 && (|L.succs[source]| > 1 ==> forall succ :: succ in L.succs[source] ==>
            !Common(L, source, succ)))
    case Exit(exit, mids, _) =>
      if |Beyond(L, source)| == 1 then Beyond(L, source) == {exit} && (Edge(source, exit) !in L.succs[source] ==>
            mids == Heads(L, source))
      else mids == Heads(L, source) - {exit} && exists succ ::
            succ in L.succs[source] && Common(L, source, succ) && exit == succ.snk
  }

  lemma ShortcutPicked(L: Linked, s: nat, mids: set<nat>, t: nat, r: Found)
    requires Mirrored(L) && s in L.succs && L.preds[s] != {} && Edge(s, t) in L.succs[s] && mids == Heads(L, s) - {t}
    requires |Beyond(L, s)| != 1 && |L.succs[s]| > 1 && OnlyCommon(L, s, Edge(s, t))
    requires Picked(L, s, r) && !r.Missing?
    ensures r.Exit? && r.exit == t && r.mids == mids
  {
    assert Common(L, s, Edge(s, t));
  }

  lemma MergePicked(L: Linked, s: nat, mids: set<nat>, t: nat, r: Found)
    requires Mirrored(L) && s in L.succs && L.preds[s] != {} && L.succs[s] != {} && Edge(s, t) !in L.succs[s]
    requires mids == Heads(L, s) && Beyond(L, s) == {t}
    requires Picked(L, s, r) && !r.Missing?
    ensures r.Exit? && r.exit == t && r.mids == mids
  {
    assert t in Beyond(L, s);
  }

  /** A diamond leaves the search just one exit to pick. */
  lemma DiamondPicked(L: Linked, s: nat, mids: set<nat>, t: nat, r: Found)
    requires Mirrored(L) && Diamond(L, s, mids, t) && Picked(L, s, r) && !r.Missing?
    ensures r.Exit? && r.exit == t && r.mids == mids
  {
    if Edge(s, t) in L.succs[s] {
      WithShortcut(L, s, mids, t);
      ShortcutPicked(L, s, mids, t, r);
    } else {
      WithoutShortcut(L, s, mids, t);
      MergePicked(L, s, mids, t, r);
    }
  }

  lemma ShortcutFits(L: Linked, source: nat, succ: Edge)
    requires Mirrored(L) && source in L.succs && L.preds[source] != {} && |Beyond(L, source)| != 1
    requires |L.succs[source]| > 1 && succ in L.succs[source] && Common(L, source, succ)
    ensures Picked(L, source, Exit(succ.snk, Heads(L, source) - {succ.snk}, false))
    ensures Candidate(L, source, succ.snk, Heads(L, source) - {succ.snk}, false)
  {
    ManyHeads(L, source, succ);
    assert succ == Edge(source, succ.snk);
  }

  /** The shortcut case: the exit is the sink of one of the branches. */
  method FindShortcut(L: Linked, source: nat) returns (r: Found)
    requires Mirrored(L) && source in L.succs && L.preds[source] != {} && |Beyond(L, source)| != 1
    ensures !r.Missing? && Picked(L, source, r)
    ensures r.Exit? ==> Candidate(L, source, r.exit, r.mids, r.mergeCase)
  {
    if |L.succs[source]| > 1 {
      if succ :| succ in L.succs[source] && Common(L, source, succ) {
        ShortcutFits(L, source, succ);
        return Exit(succ.snk, Heads(L, source) - {succ.snk}, false);
      }
    }
    return Nothing;
  }

  /** The first half: the middle nodes and the potential exit. */
  method FindExit(nodes: set<nat>, L: Linked, source: nat) returns (r: Found)
    requires Mirrored(L) && source in L.succs
    ensures r.Missing? <==> Lost(nodes, L, source)
    ensures r.Exit? ==> Candidate(L, source, r.exit, r.mids, r.mergeCase)
    ensures Picked(L, source, r)
  {
    if L.preds[source] == {} || L.succs[source] == {} {
      return Nothing;
    }
    var midNodes := Heads(L, source);
    assert midNodes != {} by {
      var e :| e in L.succs[source];
      assert e == Edge(source, e.snk) && e.snk in midNodes;
    }
    if !(midNodes <= nodes) {
      return Missing;
    }
    var midNodeSuccessors := Beyond(L, source);
    if |midNodeSuccessors| == 1 {
      var x :| x in midNodeSuccessors;
      Only(midNodeSuccessors, x);
      r := FindMerge(nodes, L, source, x);
    } else {
      r := FindShortcut(L, source);
    }
  }

  predicate MidsFrom(L: Linked, source: nat, mids: set<nat>)
    requires Mirrored(L) && mids <= L.preds.Keys
  {
    forall mid :: mid in mids ==> |L.preds[mid]| == 1 && Edge(source, mid) in L.preds[mid]
  }

  predicate MidsTo(L: Linked, exit: nat, mids: set<nat>)
    requires Mirrored(L) && mids <= L.succs.Keys
  {
    forall mid :: mid in mids ==> |L.succs[mid]| == 1 && Edge(mid, exit) in L.succs[mid]
  }

  lemma MidsAreSingle(L: Linked, source: nat, exit: nat, mids: set<nat>)
    requires Mirrored(L) && mids <= L.succs.Keys
    ensures MidsFrom(L, source, mids) <==> forall m :: m in mids ==> L.preds[m] == {Edge(source, m)}
    ensures MidsTo(L, exit, mids) <==> forall m :: m in mids ==> L.succs[m] == {Edge(m, exit)}
  {
    forall m | m in mids
      ensures |L.preds[m]| == 1 && Edge(source, m) in L.preds[m] <==> L.preds[m] == {Edge(source, m)}
      ensures |L.succs[m]| == 1 && Edge(m, exit) in L.succs[m] <==> L.succs[m] == {Edge(m, exit)}
    {
      if |L.preds[m]| == 1 && Edge(source, m) in L.preds[m] {
        Only(L.preds[m], Edge(source, m));
      }
      if |L.succs[m]| == 1 && Edge(m, exit) in L.succs[m] {
        Only(L.succs[m], Edge(m, exit));
      }
    }
  }

  /** The six tests on a potential exit, implied ones left out. */
  ghost predicate Passes(L: Linked, source: nat, exit: nat, mids: set<nat>, mergeCase: bool)
    requires Mirrored(L) && source in L.succs && exit in L.succs && mids <= L.succs.Keys
  {
    && L.succs[exit] != {} && exit !in mids
    && Tails(L, source) !! mids + {exit}
    && MidsFrom(L, source, mids) && MidsTo(L, exit, mids)
    && Tails(L, exit) <= (if mergeCase then mids else mids + {source})
  }

  lemma MidsAreNodes(L: Linked, source: nat, exit: nat, mids: set<nat>, mergeCase: bool)
    requires Mirrored(L) && source in L.succs && Candidate(L, source, exit, mids, mergeCase)
    ensures mids <= L.succs.Keys
  {
    forall m | m in mids ensures m in L.succs {
      assert Edge(source, m) in L.succs[source];
    }
  }

  /** The tests amount to the diamond. */
  lemma PassesIsDiamond(L: Linked, source: nat, exit: nat, mids: set<nat>, mergeCase: bool)
    requires Mirrored(L) && source in L.succs && Candidate(L, source, exit, mids, mergeCase)
    requires mids <= L.succs.Keys && Passes(L, source, exit, mids, mergeCase)
    ensures Diamond(L, source, mids, exit)
  {
    MidsAreSingle(L, source, exit, mids);
    SelfMirror(L, source);
    SelfMirror(L, exit);
    if m :| m in mids {
      assert Edge(m, exit) in L.succs[m] && Edge(m, exit) in L.preds[exit];
      assert m in Tails(L, exit);
    }
  }

  lemma SelfMirror(L: Linked, n: nat)
    requires Mirrored(L) && n in L.succs
    ensures n in Heads(L, n) <==> n in Tails(L, n)
    ensures n in Heads(L, n) <==> Edge(n, n) in L.succs[n]
  {
  }

  lemma HeadMirror(L: Linked, a: nat, b: nat)
    requires Mirrored(L) && a in L.succs && b in L.succs
    ensures b in Heads(L, a) <==> a in Tails(L, b)
  {
  }

  lemma DiamondPasses(L: Linked, source: nat, exit: nat, mids: set<nat>, mergeCase: bool)
    requires Mirrored(L) && source in L.succs && Candidate(L, source, exit, mids, mergeCase)
    requires mids <= L.succs.Keys && Diamond(L, source, mids, exit)
    ensures Passes(L, source, exit, mids, mergeCase)
  {
    MidsAreSingle(L, source, exit, mids);
    forall m | m in mids ensures m !in Tails(L, source) {
      HeadMirror(L, m, source);
    }
  }

  /** The second half: the conditions on a potential exit, in the order they are tested. */
  predicate Accepts(L: Linked, source: nat, exit: nat, midNodes: set<nat>, mergeCase: bool)
    requires Mirrored(L) && source in L.succs && exit in L.succs && midNodes <= L.succs.Keys
  {
    && L.preds[exit] != {} && L.succs[exit] != {}
    && exit !in midNodes
    && |midNodes + {exit} - Tails(L, source)| == |midNodes| + 1
    && MidsFrom(L, source, midNodes)
    && MidsTo(L, exit, midNodes)
    && Heads(L, exit) !! midNodes
    && if mergeCase then
         midNodes - Heads(L, source) == {} && Tails(L, exit) - midNodes == {}
       else
         midNodes + {exit} - Heads(L, source) == {} && Tails(L, exit) - (midNodes + {source}) == {}
  }

  /** The tests accept exactly the diamonds. */
  lemma AcceptsDiamonds(L: Linked, source: nat, exit: nat, mids: set<nat>, mergeCase: bool)
    requires Mirrored(L) && source in L.succs && Candidate(L, source, exit, mids, mergeCase)
    requires mids <= L.succs.Keys
    ensures Accepts(L, source, exit, mids, mergeCase) <==> Diamond(L, source, mids, exit)
  {
    AcceptsPasses(L, source, exit, mids, mergeCase);
    if Accepts(L, source, exit, mids, mergeCase) {
      PassesIsDiamond(L, source, exit, mids, mergeCase);
    } else if Diamond(L, source, mids, exit) {
      DiamondPasses(L, source, exit, mids, mergeCase);
    }
  }

  lemma AcceptsPasses(L: Linked, source: nat, exit: nat, mids: set<nat>, mergeCase: bool)
    requires Mirrored(L) && source in L.succs && Candidate(L, source, exit, mids, mergeCase)
    requires mids <= L.succs.Keys
    ensures Accepts(L, source, exit, mids, mergeCase) <==> Passes(L, source, exit, mids, mergeCase)
  {
    if exit !in mids {
      TestBySize(mids, exit, Tails(L, source));
      ExitHasPreds(L, source, exit, mids, mergeCase);
      NoReturnToMids(L, source, exit, mids);
      CaseTests(L, source, exit, mids, mergeCase);
    }
  }

  lemma ExitHasPreds(L: Linked, source: nat, exit: nat, mids: set<nat>, mergeCase: bool)
    requires Mirrored(L) && source in L.succs && Candidate(L, source, exit, mids, mergeCase)
    requires mids <= L.succs.Keys
    ensures MidsTo(L, exit, mids) ==> L.preds[exit] != {}
  {
    if L.preds[exit] == {} {
      NoPredsNoMids(L, source, exit, mids, mergeCase);
    }
  }

  lemma CaseTests(L: Linked, source: nat, exit: nat, mids: set<nat>, mergeCase: bool)
    requires Mirrored(L) && source in L.succs && Candidate(L, source, exit, mids, mergeCase)
    ensures (if mergeCase then mids - Heads(L, source) == {} && Tails(L, exit) - mids == {}
             else mids + {exit} - Heads(L, source) == {} && Tails(L, exit) - (mids + {source}) == {})
       <==> Tails(L, exit) <= (if mergeCase then mids else mids + {source})
  {
    if mergeCase {
      NothingLeft(Tails(L, exit), mids);
    } else {
      assert exit in Heads(L, source);
      assert mids + {exit} - Heads(L, source) == {};
      NothingLeft(Tails(L, exit), mids + {source});
    }
  }

  lemma NothingLeft(A: set<nat>, B: set<nat>)
    ensures A - B == {} <==> A <= B
  {
    if A - B == {} {
      forall x | x in A ensures x in B {
        assert x !in A - B;
      }
    }
  }

  lemma TestBySize(mids: set<nat>, exit: nat, tails: set<nat>)
    requires exit !in mids
    ensures |mids + {exit} - tails| == |mids| + 1 <==> tails !! mids + {exit}
  {
    var all := mids + {exit};
    assert |all| == |mids| + 1;
    if |all - tails| == |all| {
      SameSize(all - tails, all);
    }
  }

  lemma NoPredsNoMids(L: Linked, source: nat, exit: nat, mids: set<nat>, mergeCase: bool)
    requires Mirrored(L) && source in L.succs && Candidate(L, source, exit, mids, mergeCase)
    requires mids <= L.succs.Keys && L.preds[exit] == {}
    ensures !MidsTo(L, exit, mids)
  {
    SelfMirror(L, exit);
    if m :| m in mids {
      HeadMirror(L, m, exit);
      assert exit !in Heads(L, m);
    }
  }

  lemma NoReturnToMids(L: Linked, source: nat, exit: nat, mids: set<nat>)
    requires Mirrored(L) && source in L.succs && exit in L.succs && mids <= L.succs.Keys
    ensures Tails(L, source) !! mids + {exit} && MidsFrom(L, source, mids) && MidsTo(L, exit, mids) ==>
      Heads(L, exit) !! mids
  {
    MidsAreSingle(L, source, exit, mids);
    forall m | m in mids
      ensures m in Heads(L, exit) && MidsFrom(L, source, mids) && MidsTo(L, exit, mids) ==>
        exit == source && m in Tails(L, source)
    {
      HeadMirror(L, exit, m);
      HeadMirror(L, m, exit);
    }
  }

  /** BranchToSelectTransforms: the region of the diamond at the source, nothing when there is
      none, or the report of a node missing from the graph. */
  method BranchToSelectTransforms(nodes: set<nat>, L: Linked, source: nat)
    returns (threw: bool, sub: Net, ghost sink: nat)
    requires Mirrored(L) && source in L.succs
    ensures threw <==> Lost(nodes, L, source)
    ensures !threw ==> (sub != EmptyNet <==> exists mids, t :: Diamond(L, source, mids, t))
    ensures sub != EmptyNet ==> !threw && Region(EdgesOf(L), sub, source, sink)
    ensures sub != EmptyNet ==> Diamond(L, source, sub.nodes - {source, sink}, sink)
  {
    threw, sub, sink := false, EmptyNet, source;
    var r := FindExit(nodes, L, source);
    forall mids, t: nat | Diamond(L, source, mids, t) ensures r.Missing? || (r.Exit? && r.exit == t && r.mids == mids) {
      if !r.Missing? {
        DiamondPicked(L, source, mids, t, r);
      }
    }
    match r
    case Missing => threw := true;
    case Nothing =>
    case Exit(exit, mids, mergeCase) =>
      MidsAreNodes(L, source, exit, mids, mergeCase);
      AcceptsDiamonds(L, source, exit, mids, mergeCase);
      if Accepts(L, source, exit, mids, mergeCase) {
        sub := DiamondNet(L, source, mids, exit);
        DiamondNodes(L, source, mids, exit, sub);
        sink := exit;
      }
  }
}
