/** What the bottleneck search looks for, without its colours: the nodes that can only be
    entered through the source, by how far they are from it, and the smallest region that
    starts at the source. */
module Enclosures {
  import opened Graphs
  import opened Sets
  import opened CycleSearch
  import opened Regions

  predicate From(edges: set<Edge>, nodes: set<nat>) {
    forall e {:trigger e in edges} :: e in edges ==> e.src in nodes
  }

  lemma FromMore(edges: set<Edge>, nodes: set<nat>, more: set<nat>)
    requires nodes <= more
    ensures From(edges, nodes) ==> From(edges, more)
  {
  }

  /** The nodes entered, and only from S or the source. */
  function OnlyFrom(L: Linked, source: nat, S: set<nat>): set<nat> {
    set n | n in L.preds && L.preds[n] != {} && From(L.preds[n], S + {source})
  }

  /** A node is explained in round k when everything entering it leaves the source or a node
      explained in an earlier round. */
  function Explained(L: Linked, source: nat, k: nat): (S: set<nat>)
    requires Mirrored(L)
    ensures S <= L.preds.Keys
  {
    if k == 0 then {} else OnlyFrom(L, source, Explained(L, source, k - 1))
  }

  function EdgesInto(L: Linked, S: set<nat>): set<Edge>
    requires Mirrored(L)
  {
    set e | e in EdgesOf(L) && e.snk in S
  }

  function EdgesFrom(L: Linked, S: set<nat>): set<Edge>
    requires Mirrored(L)
  {
    set e | e in EdgesOf(L) && e.src in S
  }

  /** The source is entered from elsewhere. */
  ghost predicate Open(L: Linked, source: nat, S: set<nat>)
    requires source in L.preds
  {
    !From(L.preds[source], S + {source})
  }

  /** The nodes of S with a successor outside what S is entered by. */
  ghost function LeavingAt(L: Linked, S: set<nat>, source: nat): set<nat>
    requires Mirrored(L) && S <= L.preds.Keys && source in L.preds
  {
    set n | n in S + {source} && !(L.succs[n] <= EdgesInto(L, S))
  }

  /** The edges explained in k rounds close: they are entered at the source only, which has
      another way in, and left at t only. */
  ghost predicate ClosesAt(L: Linked, source: nat, k: nat, t: nat)
    requires Mirrored(L) && source in L.preds
  {
    var S := Explained(L, source, k);
    && |EdgesInto(L, S)| >= 3
    && Open(L, source, S)
    && (forall n :: n in S + {source} ==> L.succs[n] != {})
    && LeavingAt(L, S, source) == {t}
  }

  /** A region from the source to t that is worth looking for: at least three edges, another way
      into the source, and a way on from t. */
  ghost predicate Enclosed(L: Linked, source: nat, R: Net, t: nat)
    requires Mirrored(L) && source in L.preds
  {
    && Region(EdgesOf(L), R, source, t)
    && |R.edges| >= 3
    && Open(L, source, R.nodes)
    && t in L.succs && L.succs[t] != {}
  }

  // ----- rounds -----

  lemma {:induction false} ExplainedGrows(L: Linked, source: nat, j: nat, k: nat)
    requires Mirrored(L) && j <= k
    ensures Explained(L, source, j) <= Explained(L, source, k)
    decreases k
  {
    if j > 0 {
      ExplainedGrows(L, source, j - 1, k - 1);
    }
  }

  ghost predicate Stuck(L: Linked, source: nat, S: set<nat>) {
    OnlyFrom(L, source, S) == S
  }

  /** A round that explains nothing new is the last one that matters. */
  lemma {:induction false} StuckForGood(L: Linked, source: nat, j: nat, k: nat)
    requires Mirrored(L) && j <= k && Stuck(L, source, Explained(L, source, j))
    ensures Explained(L, source, k) == Explained(L, source, j)
    decreases k
  {
    if j < k {
      StuckForGood(L, source, j, k - 1);
    }
  }

  /** Which happens, as there are only so many nodes. */
  lemma GetsStuck(L: Linked, source: nat, j: nat, left: nat) returns (k: nat)
    requires Mirrored(L) && |L.preds.Keys - Explained(L, source, j)| <= left
    ensures Stuck(L, source, Explained(L, source, k))
    decreases left
  {
    var S := Explained(L, source, j);
    if Stuck(L, source, S) {
      return j;
    }
    MoreExplained(L, source, j);
    k := GetsStuck(L, source, j + 1, left - 1);
  }

  lemma MoreExplained(L: Linked, source: nat, j: nat)
    requires Mirrored(L) && !Stuck(L, source, Explained(L, source, j))
    ensures |L.preds.Keys - Explained(L, source, j + 1)| < |L.preds.Keys - Explained(L, source, j)|
  {
    ExplainedGrows(L, source, j, j + 1);
    FewerLeft(L.preds.Keys, Explained(L, source, j), Explained(L, source, j + 1));
  }

  lemma FewerLeft<T>(all: set<T>, S: set<T>, S': set<T>)
    requires S < S' <= all
    ensures |all - S'| < |all - S|
  {
    var x :| x in S' && x !in S;
    SubsetSize(all - S' + {x}, all - S);
  }

  lemma EdgesTell(L: Linked, source: nat, j: nat, k: nat)
    requires Mirrored(L) && EdgesInto(L, Explained(L, source, j)) == EdgesInto(L, Explained(L, source, k))
    ensures Explained(L, source, j) == Explained(L, source, k)
  {
    EdgesCover(L, source, j, Explained(L, source, k));
    EdgesCover(L, source, k, Explained(L, source, j));
  }

  lemma EdgesCover(L: Linked, source: nat, j: nat, S: set<nat>)
    requires Mirrored(L) && EdgesInto(L, Explained(L, source, j)) <= EdgesInto(L, S)
    ensures Explained(L, source, j) <= S
  {
    forall n | n in Explained(L, source, j) ensures n in S {
      var e :| e in L.preds[n];
      assert e in EdgesOf(L);
      assert e in EdgesInto(L, Explained(L, source, j));
    }
  }

  /** The round in which a node is explained. */
  lemma FirstExplained(L: Linked, source: nat, n: nat, j: nat) returns (k: nat)
    requires Mirrored(L) && n in Explained(L, source, j)
    ensures 0 < k <= j && n in Explained(L, source, k) && n !in Explained(L, source, k - 1)
  {
    k := j;
    while n in Explained(L, source, k - 1)
      invariant 0 < k <= j && n in Explained(L, source, k)
      decreases k
    {
      k := k - 1;
    }
  }

  // ----- every enclosed region comes up -----

  ghost function Upstream(E: set<Edge>, U: set<nat>, n: nat): set<nat> {
    set m | m in U && ReachPlus(E, m, n)
  }

  ghost predicate EnteredFrom(E: set<Edge>, U: set<nat>, n: nat) {
    exists e {:trigger e in E} :: e in E && e.snk == n && e.src in U
  }

  lemma FewerBefore(E: set<Edge>, U: set<nat>, e: Edge)
    requires e in E && e.src in U && !Cyclic(E)
    ensures |Upstream(E, U, e.src)| < |Upstream(E, U, e.snk)|
  {
    forall m | m in Upstream(E, U, e.src) ensures m in Upstream(E, U, e.snk) {
      PlusIsReach(E, m, e.src);
      ReachSnoc(E, m, e);
    }
    ReachRefl(E, e.src);
    ReachSnoc(E, e.src, e);
    assert !ReachPlus(E, e.src, e.src);
    SubsetSize(Upstream(E, U, e.src) + {e.src}, Upstream(E, U, e.snk));
  }

  /** Nodes that are all entered from each other lie behind a cycle. */
  lemma EnteredFromEachOther(E: set<Edge>, U: set<nat>, n: nat)
    requires n in U && forall m :: m in U ==> EnteredFrom(E, U, m)
    ensures Cyclic(E)
    decreases |Upstream(E, U, n)|
  {
    assert EnteredFrom(E, U, n);
    var e :| e in E && e.snk == n && e.src in U;
    if !Cyclic(E) {
      FewerBefore(E, U, e);
      EnteredFromEachOther(E, U, e.src);
    }
  }

  /** An inner node of a region is entered, and only from the region. */
  lemma EnteredInside(L: Linked, source: nat, R: Net, t: nat, n: nat)
    requires Mirrored(L) && Region(EdgesOf(L), R, source, t) && n in R.nodes && n != source
    ensures n in L.preds && L.preds[n] != {} && L.preds[n] <= R.edges && From(L.preds[n], R.nodes)
  {
    ReachIsPlus(R.edges, source, n);
    var e := PlusLast(R.edges, source, n);
    assert e in EdgesOf(L) && e in L.preds[n];
    forall p | p in L.preds[n] ensures p in R.edges && p.src in R.nodes {
      assert p in EdgesOf(L) && p.snk == n;
    }
  }

  /** Every inner node of a region is explained sooner or later. */
  lemma RegionIsExplained(L: Linked, source: nat, R: Net, t: nat) returns (k: nat)
    requires Mirrored(L) && Region(EdgesOf(L), R, source, t)
    ensures R.nodes - {source} <= Explained(L, source, k)
  {
    k := GetsStuck(L, source, 0, |L.preds.Keys|);
    var S := Explained(L, source, k);
    var U := R.nodes - {source} - S;
    forall n | n in U ensures EnteredFrom(R.edges, U, n) {
      EnteredInside(L, source, R, t, n);
      assert n !in OnlyFrom(L, source, S);
      var e :| e in L.preds[n] && e.src !in S + {source};
      assert e in R.edges && e.snk == n && e.src in U;
    }
    if n :| n in U {
      EnteredFromEachOther(R.edges, U, n);
    }
    assert U == {};
  }

  /** The nodes N hold the source, which is entered from elsewhere too, and are left at t only. */
  ghost predicate Gated(L: Linked, source: nat, N: set<nat>, t: nat)
    requires Mirrored(L) && source in L.preds
  {
    && source in N && t != source && Open(L, source, N)
    && forall e {:trigger e in EdgesOf(L)} :: e in EdgesOf(L) && e.src in N && e.snk !in N ==> e.src == t
  }

  /** Nothing beyond such nodes is explained before t. */
  lemma {:induction false} ExitFirst(L: Linked, source: nat, N: set<nat>, t: nat, k: nat)
    requires Mirrored(L) && source in L.preds && Gated(L, source, N, t)
    requires t !in Explained(L, source, k)
    ensures OnlyFrom(L, source, Explained(L, source, k)) <= N - {source}
    decreases k
  {
    if k > 0 {
      ExplainedGrows(L, source, k - 1, k);
      ExitFirst(L, source, N, t, k - 1);
    }
    OnlyInside(L, source, N, t, Explained(L, source, k));
  }

  lemma OnlyInside(L: Linked, source: nat, N: set<nat>, t: nat, S: set<nat>)
    requires Mirrored(L) && source in L.preds && Gated(L, source, N, t) && S <= N - {source} && t !in S
    ensures OnlyFrom(L, source, S) <= N - {source}
  {
    FromMore(L.preds[source], S + {source}, N + {source});
    forall n | n in OnlyFrom(L, source, S) ensures n in N - {source} {
      var e :| e in L.preds[n];
      assert e in EdgesOf(L) && e.src in S + {source} && e.src in N && e.src != t && e.snk == n;
    }
  }

  /** When t is explained, everything on a way to it is. */
  lemma ExitLast(L: Linked, source: nat, E: set<Edge>, n: nat, t: nat, k: nat)
    requires Mirrored(L) && E <= EdgesOf(L) && Reach(E, n, t) && n != source && t in Explained(L, source, k)
    requires forall e :: e in E ==> e.snk != source
    ensures n in Explained(L, source, k)
  {
    var P := (m: nat) => m == source || m in Explained(L, source, k);
    forall e | e in E && P(e.snk) ensures P(e.src) {
      WayExplained(L, source, e, k);
    }
    ReachBackInduction(E, n, t, P);
  }

  lemma WayExplained(L: Linked, source: nat, e: Edge, k: nat)
    requires Mirrored(L) && e in EdgesOf(L) && e.snk in Explained(L, source, k)
    ensures e.src == source || e.src in Explained(L, source, k)
  {
    assert e in L.preds[e.snk];
    ExplainedGrows(L, source, k - 1, k);
    assert From(L.preds[e.snk], Explained(L, source, k - 1) + {source});
  }

  lemma RegionIsGated(L: Linked, source: nat, R: Net, t: nat)
    requires Mirrored(L) && source in L.preds && Enclosed(L, source, R, t)
    ensures Gated(L, source, R.nodes, t)
  {
  }

  lemma AllOnTheWay(L: Linked, source: nat, R: Net, t: nat, k: nat)
    requires Mirrored(L) && source in L.preds && Enclosed(L, source, R, t) && t in Explained(L, source, k)
    ensures R.nodes - {source} <= Explained(L, source, k)
  {
    forall e | e in R.edges ensures e.snk != source {
      EntryIsFirst(EdgesOf(L), R, source, t, e);
    }
    forall n | n in R.nodes - {source} ensures n in Explained(L, source, k) {
      ExitLast(L, source, R.edges, n, t, k);
    }
  }

  lemma RegionSettled(L: Linked, source: nat, R: Net, t: nat) returns (k: nat)
    requires Mirrored(L) && source in L.preds && Enclosed(L, source, R, t)
    ensures k > 0 && Explained(L, source, k) == R.nodes - {source}
    ensures |EdgesInto(L, Explained(L, source, k - 1))| < |EdgesInto(L, Explained(L, source, k))|
  {
    var last := RegionIsExplained(L, source, R, t);
    k := FirstExplained(L, source, t, last);
    RegionIsGated(L, source, R, t);
    ExitFirst(L, source, R.nodes, t, k - 1);
    AllOnTheWay(L, source, R, t, k);
    LayerEntered(L, source, t, k);
  }

  lemma LayerEntered(L: Linked, source: nat, t: nat, k: nat)
    requires Mirrored(L) && k > 0 && t in Explained(L, source, k) && t !in Explained(L, source, k - 1)
    ensures |EdgesInto(L, Explained(L, source, k - 1))| < |EdgesInto(L, Explained(L, source, k))|
  {
    ExplainedGrows(L, source, k - 1, k);
    FewerInto(L, t, Explained(L, source, k - 1), Explained(L, source, k));
  }

  /** So every enclosed region is, at some round, exactly what is explained. */
  lemma RegionComesUp(L: Linked, source: nat, R: Net, t: nat) returns (k: nat)
    requires Mirrored(L) && source in L.preds && Enclosed(L, source, R, t)
    ensures k > 0 && Explained(L, source, k) == R.nodes - {source} && EdgesInto(L, Explained(L, source, k)) == R.edges
    ensures ClosesAt(L, source, k, t) && |EdgesInto(L, Explained(L, source, k - 1))| < |R.edges|
  {
    k := RegionSettled(L, source, R, t);
    RegionEdges(L, source, R, t, Explained(L, source, k));
    RegionCloses(L, source, R, t, k);
  }

  lemma RegionEdges(L: Linked, source: nat, R: Net, t: nat, S: set<nat>)
    requires Mirrored(L) && source in L.preds && Enclosed(L, source, R, t) && S == R.nodes - {source}
    ensures EdgesInto(L, S) == R.edges
  {
    forall e | e in R.edges ensures e in EdgesInto(L, S) {
      EntryIsFirst(EdgesOf(L), R, source, t, e);
    }
    forall e | e in EdgesInto(L, S) ensures e in R.edges {
      assert e in EdgesOf(L);
    }
  }

  lemma RegionCloses(L: Linked, source: nat, R: Net, t: nat, k: nat)
    requires Mirrored(L) && source in L.preds && Enclosed(L, source, R, t)
    requires Explained(L, source, k) == R.nodes - {source} && EdgesInto(L, Explained(L, source, k)) == R.edges
    ensures ClosesAt(L, source, k, t)
  {
    var S := Explained(L, source, k);
    assert S + {source} == R.nodes;
    assert Open(L, source, S) by {
      assert R.nodes + {source} == S + {source};
    }
    forall n | n in R.nodes ensures L.succs[n] != {} && (n != t ==> L.succs[n] <= R.edges) {
      if n != t {
        ReachIsPlus(R.edges, n, t);
        var e :| e in R.edges && e.src == n && Reach(R.edges, e.snk, t);
        assert e in EdgesOf(L) && e in L.succs[n];
        forall f | f in L.succs[n] ensures f in R.edges {
          assert f in EdgesOf(L) && f.src == n;
        }
      }
    }
    var f :| f in L.succs[t];
    assert f.src == t;
    if f in R.edges {
      ExitIsLast(EdgesOf(L), R, source, t, f);
    }
    assert t in LeavingAt(L, S, source);
  }

  lemma IntoGrows(L: Linked, source: nat, j: nat, k: nat)
    requires Mirrored(L) && j <= k
    ensures |EdgesInto(L, Explained(L, source, j))| <= |EdgesInto(L, Explained(L, source, k))|
  {
    ExplainedGrows(L, source, j, k);
    SubsetSize(EdgesInto(L, Explained(L, source, j)), EdgesInto(L, Explained(L, source, k)));
  }

  lemma FewerInto(L: Linked, t: nat, S: set<nat>, S': set<nat>)
    requires Mirrored(L) && S <= S' && t in S' && t !in S && t in L.preds && L.preds[t] != {}
    ensures |EdgesInto(L, S)| < |EdgesInto(L, S')|
  {
    var e :| e in L.preds[t];
    assert e in EdgesOf(L) && e.snk == t;
    SubsetSize(EdgesInto(L, S) + {e}, EdgesInto(L, S'));
  }

  /** What closes first is inside every enclosed region. */
  lemma FirstIsSmallest(L: Linked, source: nat, k: nat, R: Net, t: nat)
    requires Mirrored(L) && source in L.preds && Enclosed(L, source, R, t)
    requires forall j: nat, u :: j < k ==> !ClosesAt(L, source, j, u)
    ensures Explained(L, source, k) + {source} <= R.nodes
  {
    var j := RegionComesUp(L, source, R, t);
    ExplainedGrows(L, source, k, j);
  }
}
