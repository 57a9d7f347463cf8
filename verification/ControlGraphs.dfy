/** The control graph object and the transforms that rewrite it in place. */
module ControlGraphs {
  import opened Graphs
  import opened Sets
  import opened Traces
  import opened CycleSearch
  import opened Regions
  import opened Contraction
  import opened ControlState
  import opened SimpleRegions
  import opened Enclosures
  import opened Bottleneck
  import opened Flow
  import opened Balancing
  import opened Runs
  import opened Passes
  import opened Kernels

  class ControlGraph {
    var nodeSet: set<nat>
    var edgeSet: set<Edge>
    var succs: Links
    var preds: Links
    var body: map<Edge, Body>
    var nextNID: nat

    ghost function View(): GraphState
      reads this
    {
      GraphState(nodeSet, edgeSet, succs, preds, body, nextNID)
    }

    constructor (g: GraphState)
      ensures View() == g
    {
      nodeSet, edgeSet, succs, preds, body, nextNID := g.nodes, g.edges, g.succs, g.preds, g.body, g.nextNID;
    }

    /** Graph::addEdge: a set insertion, without effect when the key is present. */
    method AddEdge(key: Edge, b: Body)
      modifies this
      ensures View() == old(View()).(edges := old(edgeSet) + {key},
                body := if key in old(edgeSet) && key in old(body) then old(body) else old(body)[key := b])
    {
      if !(key in edgeSet && key in body) {
        body := body[key := b];
      }
      edgeSet := edgeSet + {key};
    }

    /** Graph::removeEdge for every edge of a set. */
    method RemoveEdges(S: set<Edge>)
      modifies this
      ensures View() == old(View()).(edges := old(edgeSet) - S, body := old(body) - S)
    {
      edgeSet := edgeSet - S;
      body := body - S;
    }

    method AddSuccessor(n: nat, key: Edge)
      requires n in succs
      modifies this
      ensures View() == old(View()).(succs := old(succs)[n := old(succs)[n] + {key}])
    {
      succs := succs[n := succs[n] + {key}];
    }

    method AddPredecessor(n: nat, key: Edge)
      requires n in preds
      modifies this
      ensures View() == old(View()).(preds := old(preds)[n := old(preds)[n] + {key}])
    {
      preds := preds[n := preds[n] + {key}];
    }

    /** The body of the entrance loop for one node. */
    method VirtualizeEntrance(N: set<nat>, vn: nat, u: nat)
      requires u in succs && vn in preds && succs[u] <= body.Keys
      modifies this
      ensures View() == WrapEntrance(old(View()), N, vn, u, EntranceBody(old(View()), N, vn, u))
    {
      var totalFreq := TotalOf(succs[u], body);
      var VNEdges := set e | e in succs[u] && e.snk in N;
      assert VNEdges == Into(View(), N, u);
      var VNfreq := TotalOf(VNEdges, body);
      var key := Edge(if u in N then vn else u, vn);
      var newEdge := Body(VNfreq, if totalFreq == 0 then 1.0 else VNfreq as real / totalFreq as real,
                          Virtual(key, set e | e in VNEdges :: body[e].what));
      succs := succs[u := succs[u] - VNEdges];
      RemoveEdges(VNEdges);
      AddPredecessor(vn, key);
      AddSuccessor(u, key);
      AddEdge(key, newEdge);
    }

    /** The body of the exit loop for one edge. */
    method VirtualizeExit(vn: nat, x: Edge)
      requires vn in succs && x.snk in preds && x in body
      modifies this
      ensures View() == WrapExit(old(View()), vn, x)
    {
      var key := Edge(vn, x.snk);
      var newEdge := ExitBody(body[x], key);
      RemoveEdges({x});
      AddEdge(key, newEdge);
      AddSuccessor(vn, key);
      preds := preds[x.snk := preds[x.snk] - {x}];
      AddPredecessor(x.snk, key);
    }

    /** One turn of the entrance loop. */
    method NextEntrance(sub: Net, vn: nat, ghost g0: GraphState, ghost done: set<nat>, ent: nat)
      requires View() in Midway(g0, sub, vn, done, {})
      requires ent in ToWrap(g0, sub) && ent !in done
      modifies this
      ensures View() in Midway(g0, sub, vn, done + {ent}, {})
    {
      EntranceReady(g0, View(), sub, vn, done, ent);
      ghost var g := View();
      VirtualizeEntrance(sub.nodes, vn, ent);
      NextMidway(g0, g, sub, vn, done, ent);
    }

    /** First loop: every node with an entrance edge. */
    method VirtualizeEntrances(sub: Net, vn: nat, ghost g0: GraphState)
      requires Contractible(g0, sub, vn) && View() == Start(g0)
      modifies this
      ensures View() in Midway(g0, sub, vn, ToWrap(g0, sub), {})
    {
      StartMidway(g0, sub);
      var entNodes := set n, e | n in sub.nodes && e in preds[n] && e !in sub.edges :: e.src;
      EntrantsToWrap(g0, sub);
      assert entNodes == Entrants(View(), sub);
      var done: set<nat> := {};
      while done < entNodes
        invariant done <= entNodes
        invariant View() in Midway(g0, sub, vn, done, {})
        decreases entNodes - done
      {
        var ent :| ent in entNodes && ent !in done;
        NextEntrance(sub, vn, g0, done, ent);
        done := done + {ent};
      }
      assert done == entNodes;
    }

    /** One turn of the exit loop. */
    method NextExit(sub: Net, vn: nat, ghost g0: GraphState, ghost done: set<Edge>, ex: Edge)
      requires View() in Midway(g0, sub, vn, ToWrap(g0, sub), done)
      requires ex in ExitsToWrap(g0, sub, vn) && ex !in done
      modifies this
      ensures View() in Midway(g0, sub, vn, ToWrap(g0, sub), done + {ex})
    {
      ExitReady(g0, View(), sub, vn, done, ex);
      ghost var g := View();
      VirtualizeExit(vn, ex);
      LastMidway(g0, g, sub, vn, done, ex);
    }

    /** Second loop: every exit edge. The test for edges that end inside the subgraph stays,
        although the first loop has already removed them all. */
    method VirtualizeExits(sub: Net, vn: nat, ghost g0: GraphState)
      requires View() in Midway(g0, sub, vn, ToWrap(g0, sub), {})
      modifies this
      ensures View() in Midway(g0, sub, vn, ToWrap(g0, sub), ExitsToWrap(g0, sub, vn))
    {
      NodesLinked(g0, View(), sub, vn);
      var exEdges := set n, e | n in sub.nodes && e in succs[n] && e !in sub.edges :: e;
      assert exEdges == Exits(View(), sub);
      ExitsFound(g0, View(), sub, vn);
      var done: set<Edge> := {};
      while done < exEdges
        invariant done <= exEdges
        invariant View() in Midway(g0, sub, vn, ToWrap(g0, sub), done)
        decreases exEdges - done
      {
        var ex :| ex in exEdges && ex !in done;
        if ex.snk !in sub.nodes {
          NextExit(sub, vn, g0, done, ex);
        }
        done := done + {ex};
      }
      assert done == exEdges;
    }

    /** VirtualizeSubgraph: the id of the new node, or nothing (and no change) when the subgraph
        is empty, which the program reports as an error. */
    method VirtualizeSubgraph(sub: Net) returns (r: Option<nat>)
      requires Valid(View()) && sub.nodes <= nodeSet && sub.edges <= edgeSet && WellFormed(sub)
      modifies this
      ensures r.None? <==> sub.nodes == {} || sub.edges == {}
      ensures r.None? ==> View() == old(View())
      ensures r.Some? ==> r.value == old(nextNID) && Virtualized(old(View()), View(), sub, r.value)
    {
      if sub.nodes == {} || sub.edges == {} {
        return None;
      }
      ghost var g0 := View();
      var vn := nextNID;
      succs, preds, nextNID := succs[vn := {}], preds[vn := {}], vn + 1;
      VirtualizeEntrances(sub, vn, g0);
      VirtualizeExits(sub, vn, g0);
      ghost var g := View();
      RemoveContracted(sub, vn);
      MidwayFinished(g0, g, sub, vn);
      return Some(vn);
    }

    /** What was contracted leaves the graph. */
    method RemoveContracted(sub: Net, vn: nat)
      modifies this
      ensures View() == Finish(old(View()), sub, vn)
    {
      nodeSet := nodeSet - sub.nodes + {vn};
      RemoveEdges(sub.edges);
      succs := map n | n in succs && n in nodeSet :: succs[n];
      preds := map n | n in preds && n in nodeSet :: preds[n];
    }

    // ----- Kirchhoff's current law -----

    /** The probabilities of all edges that leave a node, from their frequencies. */
    method Reweigh(n: nat)
      requires n in succs
      modifies this
      ensures View() == old(View()).(body := Reweighed(old(body), old(succs)[n]))
    {
      var totalFreq := TotalOf(succs[n], body);
      body := map e | e in body ::
        if e in succs[n] then body[e].(weight := body[e].freq as real / PositiveOr1(totalFreq) as real) else body[e];
    }

    /** The edge is replaced by one with a smaller frequency, and its source's probabilities set again. */
    method Lower(maxEdge: Edge, freq: nat)
      requires Valid(View()) && maxEdge in edgeSet && 0 < freq < body[maxEdge].freq
      modifies this
      ensures KCLStep(old(View()), View(), maxEdge, freq)
    {
      var VE := ExitBody(body[maxEdge].(freq := freq), maxEdge);
      ghost var g := View();
      RemoveEdges({maxEdge});
      AddEdge(maxEdge, VE);
      assert View() == g.(body := g.body[maxEdge := VE]);
      Reweigh(maxEdge.src);
      KCLStepMade(g, maxEdge, VE);
    }

    /** One node: when its one way in and one way out differ, the larger is brought down. */
    method BalanceNode(n: nat) returns (changed: bool, ghost big: Edge, ghost least: nat)
      requires Valid(View()) && n in nodeSet
      modifies this
      ensures changed <==> !BalancedAt(old(View()), n)
      ensures !changed ==> View() == old(View())
      ensures changed ==> Evens(old(View()), View(), n, big, least)
    {
      changed, big, least := false, Edge(n, n), 0;
      if |preds[n]| == 1 && |succs[n]| == 1 {
        var pred :| pred in preds[n];
        var succ :| succ in succs[n];
        LonePair(View(), n, pred, succ);
        if body[pred].freq != body[succ].freq {
          var minEdge := if body[succ].freq < body[pred].freq then succ else pred;
          var maxEdge := if body[succ].freq > body[pred].freq then succ else pred;
          ghost var g := View();
          big, least := maxEdge, body[minEdge].freq;
          Lower(maxEdge, body[minEdge].freq);
          LoweringEvens(g, View(), n, pred, succ, maxEdge, minEdge);
          changed := true;
        }
      }
    }

    /** KCLTransform, node by node: frequencies are passed on between joined edges only, and each
        rewrite strictly lowers the total; when there was none the graph is balanced. */
    method KCLTransform(ghost E0: set<Edge>, home: map<nat, nat>) returns (didChange: bool, ghost s: seq<GraphState>)
      requires Run(home, View()) in Running(E0)
      modifies this
      ensures Run(home, View()) in After(ALL, E0, Run(home, old(View())))
      ensures nodeSet == old(nodeSet) && edgeSet == old(edgeSet)
      ensures BalancePass(s, old(View()), View(), old(nodeSet))
      ensures didChange ==> TotalFreq(View()) < TotalFreq(old(View()))
      ensures !didChange ==> View() == old(View()) && Balanced(View())
    {
      didChange := false;
      ghost var r0 := Run(home, View());
      AfterSelf(ALL, E0, r0);
      RunIsValid(E0, r0);
      BalanceStarts(r0.g);
      s := [r0.g];
      var nodes, done := nodeSet, {};
      while done < nodes
        invariant done <= nodes == nodeSet
        invariant Run(home, View()) in After(ALL, E0, r0) && Balances(s, r0.g, View(), done, didChange)
        decreases nodes - done
      {
        var node :| node in nodes && node !in done;
        didChange, s := BalanceOneMore(node, didChange, done, E0, r0, s);
        done := done + {node};
      }
      assert done == nodes;
      BalanceEnds(s, r0.g, View(), didChange);
    }

    /** The turn of one node. */
    method BalanceOneMore(n: nat, didChange0: bool, ghost done: set<nat>, ghost E0: set<Edge>, ghost r0: Run,
                          ghost s0: seq<GraphState>)
      returns (didChange: bool, ghost s: seq<GraphState>)
      requires n in nodeSet && Run(r0.home, View()) in After(ALL, E0, r0)
      requires Balances(s0, r0.g, View(), done, didChange0)
      modifies this
      ensures nodeSet == old(nodeSet) && Run(r0.home, View()) in After(ALL, E0, r0)
      ensures Balances(s, r0.g, View(), done + {n}, didChange)
    {
      var changed;
      changed, s := BalanceNext(n, done, E0, r0, s0);
      didChange := didChange0 || changed;
    }

    method BalanceNext(n: nat, ghost done: set<nat>, ghost E0: set<Edge>, ghost r0: Run, ghost s0: seq<GraphState>)
      returns (changed: bool, ghost s: seq<GraphState>)
      requires n in nodeSet && Run(r0.home, View()) in After(ALL, E0, r0) && BalancePass(s0, r0.g, View(), done)
      modifies this
      ensures nodeSet == old(nodeSet) && edgeSet == old(edgeSet)
      ensures Run(r0.home, View()) in After(ALL, E0, r0) && BalancePass(s, r0.g, View(), done + {n})
      ensures changed ==> TotalFreq(View()) < TotalFreq(old(View()))
      ensures !changed ==> View() == old(View()) && n in AtRest(View())
    {
      ghost var r := Run(r0.home, View());
      RunIsValid(E0, r);
      ghost var big, least;
      changed, big, least := BalanceNode(n);
      if changed {
        EvensShape(r.g, View(), n, big, least);
        KCLAfter(E0, r, View(), big, least);
        AfterTrans(ALL, E0, r0, r, Run(r0.home, View()));
        BalanceGoesOn(s0, r0.g, r.g, done, View(), n, big, least);
        s := s0 + [View()];
      } else {
        BalanceStays(s0, r0.g, r.g, done, n);
        s := s0;
      }
    }

    // ----- simplification -----

    /** The finders at one node, cheapest first; the bottleneck search only in a full pass. */
    method FindRegion(n: nat, full: bool) returns (sub: Net, ghost t: nat)
      requires Valid(View()) && Ending(View()) && n in nodeSet
      ensures sub != EmptyNet ==> Offers(View(), full, n, sub, t)
      ensures sub == EmptyNet ==> n in Quiet(View(), full)
    {
      ReadyToSearch(View(), n);
      var L := Linked(succs, preds);
      sub, t := TrivialTransforms(L, WeightsOf(body), n);
      if sub != EmptyNet {
        ChainOffered(View(), full, n, sub, t);
        return;
      }
      var threw;
      threw, sub, t := BranchToSelectTransforms(nodeSet, L, n);
      if sub != EmptyNet {
        DiamondOffered(View(), full, n, sub, t);
        return;
      }
      if full {
        sub, t := FindEnclosed(n);
      } else {
        NothingOffered(View(), full, n);
      }
    }

    /** The bottleneck search, when there is neither a chain nor a diamond. */
    method FindEnclosed(n: nat) returns (sub: Net, ghost t: nat)
      requires Valid(View()) && Ending(View()) && n in nodeSet && Findable(View(), n)
      requires !ChainAt(View(), n) && !DiamondAt(View(), n)
      ensures sub != EmptyNet ==> Offers(View(), true, n, sub, t)
      ensures sub == EmptyNet ==> n in Quiet(View(), true)
    {
      ReadyToSearch(View(), n);
      var sink;
      sub, sink := FindNewSubgraph(Linked(succs, preds), n);
      t := if sink.Some? then sink.value else n;
      if sink.Some? {
        SmallestOffered(View(), n, sub, t);
      } else {
        NothingOffered(View(), true, n);
      }
    }

    /** Contracting what a finder returned. */
    method ContractRegion(full: bool, n: nat, sub: Net, ghost t: nat, ghost E0: set<Edge>, home0: map<nat, nat>)
      returns (vn: nat, home: map<nat, nat>)
      requires Run(home0, View()) in Running(E0) && Offers(View(), full, n, sub, t)
      modifies this
      ensures Run(home, View()) in After(ALL, E0, Run(home0, old(View())))
      ensures Contracts(full, Run(home0, old(View())), Run(home, View()), n, sub, t, vn)
      ensures |nodeSet| < |old(nodeSet)|
    {
      ghost var r := Run(home0, View());
      RegionReady(View(), sub, n, t);
      var made := VirtualizeSubgraph(sub);
      vn := made.value;
      RegionAfter(E0, r, View(), sub, n, t, vn);
      RegionShrinks(r.g, View(), sub, n, t, vn);
      home := Move(home0, sub.nodes, vn);
    }

    /** Find a region at a node and, when there is one, contract it. */
    method ContractAt(n: nat, full: bool, ghost E0: set<Edge>, ghost r0: Run, home0: map<nat, nat>)
      returns (vn: Option<nat>, sub: Net, home: map<nat, nat>, ghost t: nat)
      requires Run(home0, View()) in After(ALL, E0, r0) && n in nodeSet
      modifies this
      ensures Run(home, View()) in After(ALL, E0, r0)
      ensures vn.None? ==> View() == old(View()) && home == home0 && n in Quiet(View(), full)
      ensures vn.Some? ==> Contracts(full, Run(home0, old(View())), Run(home, View()), n, sub, t, vn.value)
      ensures vn.Some? ==> |nodeSet| < |old(nodeSet)|
    {
      ghost var r := Run(home0, View());
      RunIsValid(E0, r);
      sub, t := FindRegion(n, full);
      if sub == EmptyNet {
        return None, sub, home0, t;
      }
      var v;
      v, home := ContractRegion(full, n, sub, t, E0, home0);
      AfterTrans(ALL, E0, r0, r, Run(home, View()));
      vn := Some(v);
    }

    /** The nodes to look at next: all successors not looked at yet, in any order. */
    method PushSuccessors(n: nat, covered: set<nat>, Q0: seq<nat>) returns (Q: seq<nat>)
      requires n in succs
      ensures Q0 <= Q && Elems(Q) == Elems(Q0) + Uncovered(succs[n], covered)
    {
      Q := Q0;
      var done: set<Edge> := {};
      while done < succs[n]
        invariant done <= succs[n] && Q0 <= Q
        invariant Elems(Q) == Elems(Q0) + Uncovered(done, covered)
        decreases succs[n] - done
      {
        var succ :| succ in succs[n] && succ !in done;
        if succ.snk !in covered {
          assert Elems(Q + [succ.snk]) == Elems(Q) + {succ.snk};
          Q := Q + [succ.snk];
        }
        done := done + {succ};
      }
      assert done == succs[n];
    }

    /** One worklist pass from where the first node is: contract what is offered until every node
        reached is covered. It ends because nodes disappear, or are covered, or leave the queue. At
        every node it can reach in the end there was nothing to contract when its turn came. */
    method SimplifyPass(full: bool, root: nat, ghost E0: set<Edge>, home0: map<nat, nat>)
      returns (home: map<nat, nat>, ghost s: seq<Run>)
      requires Run(home0, View()) in Running(E0) && root in home0
      modifies this
      ensures Run(home, View()) in After(ALL, E0, Run(home0, old(View())))
      ensures WholePass(full, root, s, Run(home0, old(View())), Run(home, View()))
      ensures |nodeSet| + |s| <= |old(nodeSet)| + 1
    {
      ghost var r0 := Run(home0, View());
      RootIsThere(E0, r0, root);
      AfterSelf(ALL, E0, r0);
      RunIsValid(E0, r0);
      PassStarts(full, root, r0);
      ghost var covered;
      home, covered, s := Sweeping(full, root, [home0[root]], E0, r0, home0);
      RunIsValid(E0, Run(home, View()));
      RootIsThere(E0, Run(home, View()), root);
      PassEnds(full, root, s, r0, Run(home, View()), covered);
    }

    /** The worklist loop. */
    method Sweeping(full: bool, ghost root: nat, Q0: seq<nat>, ghost E0: set<Edge>, ghost r0: Run, home0: map<nat, nat>)
      returns (home: map<nat, nat>, ghost seen: set<nat>, ghost s: seq<Run>)
      requires r0 in After(ALL, E0, r0) && View() == r0.g && home0 == r0.home
      requires Worklist({}, Elems(Q0)) in Worklists(full, root, [r0], r0, r0)
      modifies this
      ensures Run(home, View()) in After(ALL, E0, r0) && |nodeSet| + |s| <= |r0.g.nodes| + 1
      ensures root in home && Worklist(seen, {}) in Worklists(full, root, s, r0, Run(home, View()))
    {
      home, s := home0, [r0];
      var covered, Q := {}, Q0;
      while Q != []
        invariant Run(home, View()) in After(ALL, E0, r0) && |nodeSet| + |s| <= |r0.g.nodes| + 1
        invariant Worklist(covered, Elems(Q)) in Worklists(full, root, s, r0, Run(home, View()))
        decreases |nodeSet|, |nodeSet - covered|, |Q|
      {
        covered, Q, home, s := SweepStep(full, root, covered, Q, E0, r0, home, s);
      }
      assert Elems(Q) == {};
      seen := covered;
    }

    /** One turn of the loop. */
    method SweepStep(full: bool, ghost root: nat, covered0: set<nat>, Q0: seq<nat>, ghost E0: set<Edge>, ghost r0: Run,
                     home0: map<nat, nat>, ghost s0: seq<Run>)
      returns (covered: set<nat>, Q: seq<nat>, home: map<nat, nat>, ghost s: seq<Run>)
      requires |Q0| > 0 && Run(home0, View()) in After(ALL, E0, r0)
      requires Worklist(covered0, Elems(Q0)) in Worklists(full, root, s0, r0, Run(home0, View()))
      modifies this
      ensures Run(home, View()) in After(ALL, E0, r0) && |nodeSet| + |s| <= |old(nodeSet)| + |s0|
      ensures Worklist(covered, Elems(Q)) in Worklists(full, root, s, r0, Run(home, View()))
      ensures |nodeSet| < |old(nodeSet)| || (nodeSet == old(nodeSet) &&
                (|nodeSet - covered| < |nodeSet - covered0| || (nodeSet - covered == nodeSet - covered0 && |Q| < |Q0|)))
    {
      ElemsTake(Q0);
      if Q0[0] !in nodeSet || Q0[0] in covered0 {
        RunIsValid(E0, Run(home0, View()));
        PassPops(full, root, s0, r0, Run(home0, View()), covered0, Q0[0], Elems(Q0[1..]));
        covered, Q, home, s := covered0 + {Q0[0]}, Q0[1..], home0, s0;
        assert nodeSet - covered == nodeSet - covered0;
      } else {
        covered, Q, home, s := SweepNode(full, root, covered0, Q0, E0, r0, home0, s0);
      }
    }

    /** The turn at a node of the graph that is not covered. */
    method SweepNode(full: bool, ghost root: nat, covered0: set<nat>, Q0: seq<nat>, ghost E0: set<Edge>, ghost r0: Run,
                     home0: map<nat, nat>, ghost s0: seq<Run>)
      returns (covered: set<nat>, Q: seq<nat>, home: map<nat, nat>, ghost s: seq<Run>)
      requires |Q0| > 0 && Q0[0] in nodeSet && Q0[0] !in covered0 && Run(home0, View()) in After(ALL, E0, r0)
      requires Worklist(covered0, {Q0[0]} + Elems(Q0[1..])) in Worklists(full, root, s0, r0, Run(home0, View()))
      modifies this
      ensures Run(home, View()) in After(ALL, E0, r0) && |nodeSet| + |s| <= |old(nodeSet)| + |s0|
      ensures Worklist(covered, Elems(Q)) in Worklists(full, root, s, r0, Run(home, View()))
      ensures |nodeSet| < |old(nodeSet)| || (nodeSet == old(nodeSet) && |nodeSet - covered| < |nodeSet - covered0|)
    {
      ghost var r := Run(home0, View());
      var vn, sub;
      ghost var t;
      vn, sub, home, t := ContractAt(Q0[0], full, E0, r0, home0);
      if vn.Some? {
        covered, Q := covered0 + sub.nodes, [vn.value] + Q0[1..];
        PassContracts(full, root, s0, r0, r, Run(home, View()), covered0, Elems(Q0[1..]), Q0[0], sub, t, vn.value);
        ElemsTake(Q);
        s := s0 + [Run(home, View())];
      } else {
        RunIsValid(E0, r);
        covered := covered0 + {Q0[0]};
        var more := PushSuccessors(Q0[0], covered, Q0);
        ElemsTake(Q0);
        ElemsTake(more);
        Q, s := more[1..], s0;
        OneFewer(nodeSet, covered0, Q0[0]);
        PassPushes(full, root, s0, r0, r, covered0, Q0[0], Elems(Q0[1..]), Elems(Q));
      }
    }
  }

  lemma RootIsThere(E0: set<Edge>, r: Run, root: nat)
    requires r in Running(E0) && root in r.home
    ensures r.home[root] in r.g.nodes
  {
    assert r.home[root] in r.home.Values;
  }

  lemma EvensShape(g: GraphState, h: GraphState, n: nat, big: Edge, least: nat)
    requires Evens(g, h, n, big, least)
    ensures big in g.edges && KCLStep(g, h, big, least) && h.nodes == g.nodes && h.edges == g.edges
  {
  }

  /** The finders can be called at any node: links are mirrored, no chain goes round for ever,
      and no node is missing. */
  lemma ReadyToSearch(g: GraphState, n: nat)
    requires Valid(g) && Ending(g) && n in g.nodes
    ensures Mirrored(LinksOf(g)) && EdgesOf(LinksOf(g)) == g.edges && Weighted(LinksOf(g), WeightsOf(g.body))
    ensures n in g.succs && !OnRing(LinksOf(g), WeightsOf(g.body), n) && !Lost(g.nodes, LinksOf(g), n)
  {
    ValidIsMirrored(g);
    assert Ends(g, n);
    var last :| EndsAt(g, n, last);
    LeavesRing(LinksOf(g), WeightsOf(g.body), n, last);
    NothingLost(g, n);
  }

  lemma NothingLost(g: GraphState, n: nat)
    requires Valid(g) && n in g.nodes && Mirrored(LinksOf(g))
    ensures !Lost(g.nodes, LinksOf(g), n)
  {
    forall e | e in g.edges ensures e.snk in g.nodes {
    }
    forall m | m in Heads(LinksOf(g), n) ensures m in g.nodes {
      assert Edge(n, m) in g.edges;
    }
    forall m | m in Beyond(LinksOf(g), n) ensures m in g.nodes {
      var e, f :| e in g.succs[n] && f in g.succs[e.snk] && f.snk == m;
      assert e in g.edges && f in g.edges;
    }
  }

  lemma RegionReady(g: GraphState, sub: Net, s: nat, t: nat)
    requires Valid(g) && Region(g.edges, sub, s, t)
    ensures sub.nodes <= g.nodes && sub.edges != {} && sub.nodes != {}
  {
    RegionHasEdges(g.edges, sub, s, t);
    forall n | n in sub.nodes ensures n in g.nodes {
      if n == s {
        ReachIsPlus(sub.edges, s, t);
        var e :| e in sub.edges && e.src == s && Reach(sub.edges, e.snk, t);
        assert e in g.edges;
      } else {
        ReachIsPlus(sub.edges, s, n);
        var e := PlusLast(sub.edges, s, n);
        assert e in g.edges;
      }
    }
  }

  lemma RunIsValid(E0: set<Edge>, r: Run)
    requires r in Running(E0)
    ensures Valid(r.g)
  {
  }

  /** The bodies after the probabilities of the edges S, which all leave one node, are set again. */
  ghost function Reweighed(body: map<Edge, Body>, S: set<Edge>): map<Edge, Body> {
    map e | e in body ::
      if e in S then body[e].(weight := body[e].freq as real / PositiveOr1(Sum(S, FreqIn(body))) as real) else body[e]
  }

  /** Replacing the larger edge and setting the probabilities again is one step of the law. */
  lemma KCLStepMade(g: GraphState, big: Edge, VE: Body)
    requires Valid(g) && big in g.edges && 0 < VE.freq < g.body[big].freq && VE.what == Virtual(big, {g.body[big].what})
    ensures var body := g.body[big := VE];
      KCLStep(g, g.(body := Reweighed(body, g.succs[big.src])), big, VE.freq)
  {
    var body, S := g.body[big := VE], g.succs[big.src];
    var after := Reweighed(body, S);
    assert S == OutEdges(g.edges, big.src);
    SumSame(S, FreqIn(body), FreqIn(after));
  }

  /** The nodes the entrance loop must wrap. */
  ghost function ToWrap(g0: GraphState, sub: Net): set<nat> {
    set e | e in g0.edges && e.snk in sub.nodes && e !in sub.edges :: e.src
  }

  /** The edges the exit loop must wrap. */
  ghost function ExitsToWrap(g0: GraphState, sub: Net, vn: nat): set<Edge> {
    (set x | x in g0.edges && x.src in sub.nodes && x.snk !in sub.nodes)
    + if ToWrap(g0, sub) !! sub.nodes then {} else {Edge(vn, vn)}
  }

  /** The states in the middle of the two loops, with the entrants S and the exits X wrapped. */
  ghost function Midway(g0: GraphState, sub: Net, vn: nat, S: set<nat>, X: set<Edge>): iset<GraphState> {
    iset g | && Contractible(g0, sub, vn) && S <= g0.nodes && vn !in S
             && During(g0, g, sub, vn, S, X) && BodyDuring(g0, g, sub, vn, S, X)
  }

  lemma StartMidway(g0: GraphState, sub: Net)
    requires Contractible(g0, sub, g0.nextNID)
    ensures Start(g0) in Midway(g0, sub, g0.nextNID, {}, {})
  {
    StartDuring(g0, sub);
  }

  lemma EntrantsToWrap(g0: GraphState, sub: Net)
    requires Contractible(g0, sub, g0.nextNID)
    ensures sub.nodes <= Start(g0).preds.Keys && Entrants(Start(g0), sub) == ToWrap(g0, sub)
  {
    forall u ensures u in Entrants(Start(g0), sub) <==> u in ToWrap(g0, sub) {
      if u in Entrants(Start(g0), sub) || u in ToWrap(g0, sub) {
        EntrantsAre(g0, sub, u);
      }
    }
  }

  lemma EntranceReady(g0: GraphState, g: GraphState, sub: Net, vn: nat, S: set<nat>, u: nat)
    requires g in Midway(g0, sub, vn, S, {})
    requires u in ToWrap(g0, sub) && u !in S
    ensures u in g.succs && vn in g.preds && g.succs[u] <= g.body.Keys
    ensures EntranceBody(g, sub.nodes, vn, u) == EntranceBody(g0, sub.nodes, vn, u)
  {
    assert u in g0.nodes;
    ReadsOriginal(g0, g, sub, vn, S, u);
  }

  lemma NextShape(g0: GraphState, g: GraphState, sub: Net, vn: nat, S: set<nat>, u: nat)
    requires g in Midway(g0, sub, vn, S, {}) && u in ToWrap(g0, sub) && u !in S
    ensures During(g0, WrapEntrance(g, sub.nodes, vn, u, EntranceBody(g0, sub.nodes, vn, u)), sub, vn, S + {u}, {})
  {
    assert u in g0.nodes;
    EntranceStep(g0, g, sub, vn, S, u, EntranceBody(g0, sub.nodes, vn, u));
  }

  lemma NextBodies(g0: GraphState, g: GraphState, sub: Net, vn: nat, S: set<nat>, u: nat)
    requires g in Midway(g0, sub, vn, S, {}) && u in ToWrap(g0, sub) && u !in S
    ensures S + {u} <= g0.nodes && vn !in S + {u} && u in g.succs && vn in g.preds
    ensures BodyDuring(g0, WrapEntrance(g, sub.nodes, vn, u, EntranceBody(g0, sub.nodes, vn, u)), sub, vn, S + {u}, {})
  {
    var e :| e in g0.edges && e.snk in sub.nodes && e !in sub.edges && e.src == u;
    EntranceBodyStep(g0, g, sub, vn, S, u, EntranceBody(g0, sub.nodes, vn, u));
  }

  lemma NextMidway(g0: GraphState, g: GraphState, sub: Net, vn: nat, S: set<nat>, u: nat)
    requires g in Midway(g0, sub, vn, S, {})
    requires u in ToWrap(g0, sub) && u !in S && u in g.succs && vn in g.preds
    ensures WrapEntrance(g, sub.nodes, vn, u, EntranceBody(g0, sub.nodes, vn, u)) in Midway(g0, sub, vn, S + {u}, {})
  {
    assert u in g0.nodes;
    NextShape(g0, g, sub, vn, S, u);
    NextBodies(g0, g, sub, vn, S, u);
  }

  lemma NodesLinked(g0: GraphState, g: GraphState, sub: Net, vn: nat)
    requires g in Midway(g0, sub, vn, ToWrap(g0, sub), {})
    ensures sub.nodes <= g.succs.Keys
  {
  }

  lemma ExitsFound(g0: GraphState, g: GraphState, sub: Net, vn: nat)
    requires g in Midway(g0, sub, vn, ToWrap(g0, sub), {})
    requires sub.nodes <= g.succs.Keys
    ensures Exits(g, sub) == ExitsToWrap(g0, sub, vn)
    ensures forall x {:trigger x in ExitsToWrap(g0, sub, vn)} :: x in ExitsToWrap(g0, sub, vn) ==> x.snk !in sub.nodes
  {
    FreshId(g0);
    forall x ensures x in Exits(g, sub) <==> x in ExitsToWrap(g0, sub, vn) {
      ExitsAre(g0, g, sub, vn, ToWrap(g0, sub), x);
    }
  }

  lemma ExitReady(g0: GraphState, g: GraphState, sub: Net, vn: nat, X: set<Edge>, x: Edge)
    requires g in Midway(g0, sub, vn, ToWrap(g0, sub), X)
    requires x in ExitsToWrap(g0, sub, vn) && x !in X
    ensures vn in g.succs && x.snk in g.preds && x in g.body
  {
    ExitStep(g0, g, sub, vn, ToWrap(g0, sub), X, x);
  }

  lemma LastMidway(g0: GraphState, g: GraphState, sub: Net, vn: nat, X: set<Edge>, x: Edge)
    requires g in Midway(g0, sub, vn, ToWrap(g0, sub), X)
    requires x in ExitsToWrap(g0, sub, vn) && x !in X
    requires vn in g.succs && x.snk in g.preds && x in g.body
    ensures WrapExit(g, vn, x) in Midway(g0, sub, vn, ToWrap(g0, sub), X + {x})
  {
    ExitStep(g0, g, sub, vn, ToWrap(g0, sub), X, x);
    ExitBodyStep(g0, g, sub, vn, ToWrap(g0, sub), X, x);
  }

  lemma WrapsAll(g0: GraphState, sub: Net, vn: nat)
    requires Contractible(g0, sub, vn)
    ensures AllWrapped(g0, sub, vn, ToWrap(g0, sub), ExitsToWrap(g0, sub, vn))
  {
    var S, X := ToWrap(g0, sub), ExitsToWrap(g0, sub, vn);
    FreshId(g0);
    forall u ensures u in S <==> exists e :: e in g0.edges && e.src == u && e.snk in sub.nodes && e !in sub.edges {
    }
  }

  lemma MidwayFinished(g0: GraphState, g: GraphState, sub: Net, vn: nat)
    requires g in Midway(g0, sub, vn, ToWrap(g0, sub), ExitsToWrap(g0, sub, vn))
    ensures Virtualized(g0, Finish(g, sub, vn), sub, vn)
  {
    var S, X := ToWrap(g0, sub), ExitsToWrap(g0, sub, vn);
    WrapsAll(g0, sub, vn);
    FinishIsVirtualized(g0, g, sub, vn, S, X);
  }
}
