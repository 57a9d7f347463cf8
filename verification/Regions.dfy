/** The shape every contractible region must have, whichever finder produced it, and the
    links of graph nodes it is read from. */
module Regions {
  import opened Graphs
  import opened CycleSearch

  /** The successor and predecessor sets kept by the node objects. */
  datatype Linked = Linked(succs: Links, preds: Links)

  /** Every link is held by both of its endpoints, and both endpoints are present. */
  predicate Mirrored(L: Linked) {
    && L.succs.Keys == L.preds.Keys
    && (forall n, e {:trigger e in L.succs[n]} :: n in L.succs && e in L.succs[n] ==>
          e.src == n && e.snk in L.preds && e in L.preds[e.snk])
    && (forall n, e {:trigger e in L.preds[n]} :: n in L.preds && e in L.preds[n] ==>
          e.snk == n && e.src in L.succs && e in L.succs[e.src])
  }

  function EdgesOf(L: Linked): set<Edge> {
    set n, e | n in L.succs && e in L.succs[n] :: e
  }

  lemma LinksAreEdges(L: Linked, n: nat)
    requires Mirrored(L) && n in L.succs
    ensures L.succs[n] == OutEdges(EdgesOf(L), n)
    ensures L.preds[n] == InEdges(EdgesOf(L), n)
  {
  }

  /** Acyclic, entered only at s, left only at t, and every node on a path from s to t. */
  ghost predicate Region(E: set<Edge>, sub: Net, s: nat, t: nat) {
    && s in sub.nodes && t in sub.nodes && s != t
    && sub.edges <= E && WellFormed(sub)
    && !Cyclic(sub.edges)
    && (forall e {:trigger e in E} :: e in E && e.snk in sub.nodes && e !in sub.edges ==> e.snk == s)
    && (forall e {:trigger e in E} :: e in E && e.src in sub.nodes && e !in sub.edges ==> e.src == t)
    && (forall n :: n in sub.nodes ==> Reach(sub.edges, s, n) && Reach(sub.edges, n, t))
  }

  /** Nothing inside leads back to the entry. */
  lemma EntryIsFirst(E: set<Edge>, sub: Net, s: nat, t: nat, e: Edge)
    requires Region(E, sub, s, t) && e in sub.edges
    ensures e.snk != s
  {
    if e.snk == s {
      ReachSnoc(sub.edges, s, e);
    }
  }

  /** The only edge between its nodes that a region leaves outside leads from its exit to its entry:
      one node at most has an edge back into it. */
  lemma InnerEntrance(E: set<Edge>, sub: Net, s: nat, t: nat, e: Edge)
    requires Region(E, sub, s, t) && e in E && e !in sub.edges && e.src in sub.nodes && e.snk in sub.nodes
    ensures e == Edge(t, s)
  {
  }

  /** All successors of the exit leave the region's edge set. */
  lemma ExitIsLast(E: set<Edge>, sub: Net, s: nat, t: nat, e: Edge)
    requires Region(E, sub, s, t) && e in sub.edges
    ensures e.src != t
  {
    if e.src == t {
      ReachCons(sub.edges, e, t);
    }
  }
}
