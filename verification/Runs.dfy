/** Whole runs of the transforms: where every original node is buried, and what any sequence
    of contractions and frequency rewrites keeps. */
module Runs {
  import opened Graphs
  import opened Traces
  import opened CycleSearch
  import opened Regions
  import opened Contraction
  import opened ControlState
  import opened Flow

  /** A graph state with the current node each original node is buried in. */
  datatype Run = Run(home: map<nat, nat>, g: GraphState)

  /** What a transform keeps beyond reachability: the profile edges behind every edge, and also
      all cycles and probabilities. */
  datatype Keeps = Keeps(profile: bool, cycles: bool)

  const REACH := Keeps(false, false)
  const PROFILE := Keeps(true, false)
  const ALL := Keeps(true, true)

  ghost predicate EndsAt(g: GraphState, n: nat, last: nat) {
    last in g.nodes && OutEdges(g.edges, last) == {} && Reach(g.edges, n, last)
  }

  /** The node can reach a node without successors. */
  ghost predicate Ends(g: GraphState, n: nat) {
    exists last :: EndsAt(g, n, last)
  }

  ghost predicate Ending(g: GraphState) {
    forall n {:trigger Ends(g, n)} :: n in g.nodes ==> Ends(g, n)
  }

  /** The runs over the original edges E0. */
  ghost function Running(E0: set<Edge>): iset<Run> {
    iset r: Run | Valid(r.g) && Solid(r.g) && Ending(r.g) && r.home.Values == r.g.nodes && Sound(E0, r.g.edges, r.home)
  }

  /** Two original nodes buried in one current node. */
  predicate Together(home: map<nat, nat>, a: nat, b: nat) {
    a in home && b in home && home[a] == home[b]
  }

  /** What is together stays together. */
  ghost predicate Coarser(home: map<nat, nat>, next: map<nat, nat>) {
    next.Keys == home.Keys && forall a, b {:trigger Together(next, a, b)} :: Together(home, a, b) ==>
          Together(next, a, b)
  }

  ghost predicate Lighter(g: GraphState, h: GraphState) {
    |h.edges| <= |g.edges| && TotalFreq(h) <= TotalFreq(g)
  }

  ghost predicate ProfileKept(E0: set<Edge>, r: Run, r': Run) {
    Valid(r.g) && Valid(r'.g) && Traced(E0, r.home, r.g) ==> Traced(E0, r'.home, r'.g)
  }

  ghost predicate CyclesKept(E0: set<Edge>, r: Run, r': Run) {
    && (Faithful(E0, r.g.edges, r.home) ==> Faithful(E0, r'.g.edges, r'.home))
    && (Normal(r.g) ==> Normal(r'.g))
  }

  /** The runs that can come after r. */
  ghost function After(keeps: Keeps, E0: set<Edge>, r: Run): iset<Run> {
    iset r': Run | && r' in Running(E0) && Coarser(r.home, r'.home) && Lighter(r.g, r'.g)
                   && (keeps.profile ==> ProfileKept(E0, r, r'))
                   && (keeps.cycles ==> CyclesKept(E0, r, r'))
  }

  lemma AfterSelf(keeps: Keeps, E0: set<Edge>, r: Run)
    requires r in Running(E0)
    ensures r in After(keeps, E0, r)
  {
  }

  lemma AfterTrans(keeps: Keeps, E0: set<Edge>, r: Run, r': Run, r'': Run)
    requires r' in After(keeps, E0, r) && r'' in After(keeps, E0, r')
    ensures r'' in After(keeps, E0, r)
  {
    assert Valid(r'.g);
    forall a, b | Together(r.home, a, b) ensures Together(r''.home, a, b) {
      assert Together(r'.home, a, b);
    }
  }

  lemma AfterWeaker(keeps: Keeps, less: Keeps, E0: set<Edge>, r: Run, r': Run)
    requires r' in After(keeps, E0, r)
    requires (less.profile ==> keeps.profile) && (less.cycles ==> keeps.cycles)
    ensures r' in After(less, E0, r)
  {
  }

  // ----- the first run -----

  function Identity(nodes: set<nat>): map<nat, nat> {
    map n | n in nodes :: n
  }

  /** A profile graph: every edge is the profile's own. */
  ghost predicate IsProfile(g: GraphState) {
    && Valid(g) && Ending(g)
    && forall e {:trigger e in g.edges} :: e in g.edges ==> g.body[e].what == Profiled(e)
  }

  lemma ProfileRuns(g: GraphState)
    requires IsProfile(g)
    ensures Run(Identity(g.nodes), g) in Running(g.edges)
    ensures Faithful(g.edges, g.edges, Identity(g.nodes))
    ensures Traced(g.edges, Identity(g.nodes), g)
  {
    var home := Identity(g.nodes);
    forall n ensures n in home.Values <==> n in g.nodes {
      if n in g.nodes {
        assert home[n] == n;
      }
    }
    ProfileTraced(g);
  }

  lemma ProfileTraced(g: GraphState)
    requires IsProfile(g)
    ensures Traced(g.edges, Identity(g.nodes), g)
  {
    forall e | e in g.edges ensures Flatten(g.body[e].what) == {e} {
    }
  }

  // ----- contracting a region -----

  lemma MovedHome(home: map<nat, nat>, nodes: set<nat>, N: set<nat>, vn: nat)
    requires home.Values == nodes && N <= nodes && N != {}
    ensures Move(home, N, vn).Values == nodes - N + {vn} && Coarser(home, Move(home, N, vn))
  {
    var next := Move(home, N, vn);
    forall x ensures x in next.Values <==> x in nodes - N + {vn} {
      if x in next.Values {
        var a :| a in next && next[a] == x;
        assert home[a] in home.Values;
      }
      if x in nodes - N {
        var a :| a in home && home[a] == x;
        assert next[a] == x;
      } else if x == vn {
        var n :| n in N;
        assert n in home.Values;
        var a :| a in home && home[a] == n;
        assert next[a] == vn;
      }
    }
  }

  predicate NodesApart(subs: seq<Net>) {
    forall i, j :: 0 <= i < j < |subs| ==> subs[i].nodes !! subs[j].nodes
  }

  /** The nodes were there before this id was given out. */
  predicate Older(sub: Net, first: nat) {
    forall n :: n in sub.nodes ==> n < first
  }

  /** Moving into the first k subgraphs, one after the other, with ids from first on. */
  ghost function Gathered(home: map<nat, nat>, subs: seq<Net>, k: nat, first: nat): map<nat, nat>
    requires k <= |subs|
  {
    if k == 0 then home else Move(Gathered(home, subs, k - 1, first), subs[k - 1].nodes, first + k - 1)
  }

  lemma GatherOne(home: map<nat, nat>, mid: map<nat, nat>, subs: seq<Net>, k: nat, sub: Net, first: nat, vn: nat)
    requires k < |subs| && mid == Gathered(home, subs, k, first) && sub == subs[k] && vn == first + k
    ensures Move(mid, sub.nodes, vn) == Gathered(home, subs, k + 1, first)
  {
  }

  /** What comes later in the sequence does not matter. */
  lemma {:induction false} GatherPrefix(home: map<nat, nat>, subs: seq<Net>, sub: Net, k: nat, first: nat)
    requires k <= |subs|
    ensures Gathered(home, subs + [sub], k, first) == Gathered(home, subs, k, first)
  {
    if k > 0 {
      GatherPrefix(home, subs, sub, k - 1, first);
    }
  }

  lemma GatherLast(home: map<nat, nat>, mid: map<nat, nat>, subs: seq<Net>, sub: Net, first: nat, vn: nat)
    requires mid == Gathered(home, subs, |subs|, first) && vn == first + |subs|
    ensures Move(mid, sub.nodes, vn) == Gathered(home, subs + [sub], |subs| + 1, first)
  {
    GatherPrefix(home, subs, sub, |subs|, first);
    GatherOne(home, mid, subs + [sub], |subs|, sub, first, vn);
  }

  /** Older subgraphs apart from each other are each buried in a node of their own, and nothing
      else moves. */
  lemma {:induction false} GatheredApart(home: map<nat, nat>, subs: seq<Net>, k: nat, first: nat)
    requires k <= |subs| && NodesApart(subs) && forall j :: 0 <= j < k ==> Older(subs[j], first)
    ensures var next := Gathered(home, subs, k, first);
      && next.Keys == home.Keys
      && (forall a, j {:trigger home[a], subs[j]} :: a in home && 0 <= j < k && home[a] in subs[j].nodes ==>
            next[a] == first + j)
      && (forall a {:trigger next[a]} :: a in home && (forall j :: 0 <= j < k ==> home[a] !in subs[j].nodes) ==>
            next[a] == home[a])
  {
    if k > 0 {
      GatheredApart(home, subs, k - 1, first);
      GatheredNext(home, subs, k, first);
    }
  }

  lemma GatheredNext(home: map<nat, nat>, subs: seq<Net>, k: nat, first: nat)
    requires 0 < k <= |subs| && NodesApart(subs) && Older(subs[k - 1], first)
    requires var mid := Gathered(home, subs, k - 1, first);
      && mid.Keys == home.Keys
      && (forall a, j {:trigger home[a], subs[j]} :: a in home && 0 <= j < k - 1 && home[a] in subs[j].nodes ==>
            mid[a] == first + j)
      && (forall a {:trigger mid[a]} :: a in home && (forall j :: 0 <= j < k - 1 ==> home[a] !in subs[j].nodes) ==>
            mid[a] == home[a])
    ensures var next := Gathered(home, subs, k, first);
      && next.Keys == home.Keys
      && (forall a, j {:trigger home[a], subs[j]} :: a in home && 0 <= j < k && home[a] in subs[j].nodes ==>
            next[a] == first + j)
      && (forall a {:trigger next[a]} :: a in home && (forall j :: 0 <= j < k ==> home[a] !in subs[j].nodes) ==>
            next[a] == home[a])
  {
    var mid, next := Gathered(home, subs, k - 1, first), Gathered(home, subs, k, first);
    forall a, j | a in home && 0 <= j < k && home[a] in subs[j].nodes ensures next[a] == first + j {
      if j < k - 1 {
        assert mid[a] == first + j;
      } else {
        assert forall i :: 0 <= i < k - 1 ==> subs[i].nodes !! subs[j].nodes;
        assert mid[a] == home[a];
      }
    }
    forall a | a in home && (forall j :: 0 <= j < k ==> home[a] !in subs[j].nodes) ensures next[a] == home[a] {
      assert mid[a] == home[a];
    }
  }

  /** A subgraph goes into a new node, which costs at least one edge. */
  ghost predicate MovesInto(r: Run, sub: Net, r': Run) {
    && r'.home == Move(r.home, sub.nodes, r.g.nextNID) && r'.g.nextNID == r.g.nextNID + 1
    && |r'.g.edges| < |r.g.edges|
  }

  /** So do several, one after the other, each into one of its own. */
  lemma {:induction false} AllMove(step: (Run, Net, Run) -> bool, subs: seq<Net>, r: Run, r': Run)
    requires By(step, subs, r, r') && forall x, sub, y :: step(x, sub, y) ==> MovesInto(x, sub, y)
    ensures r'.home == Gathered(r.home, subs, |subs|, r.g.nextNID) && r'.g.nextNID == r.g.nextNID + |subs|
    ensures |r'.g.edges| + |subs| <= |r.g.edges|
    decreases |subs|
  {
    if subs != [] {
      var before, last := subs[..|subs| - 1], subs[|subs| - 1];
      var mid := ByLast(step, subs, r, r');
      AllMove(step, before, r, mid);
      assert MovesInto(mid, last, r');
      GatherLast(r.home, mid.home, before, last, r.g.nextNID, mid.g.nextNID);
      assert subs == before + [last];
    } else {
      ByNothing(step, subs, r, r');
    }
  }

  /** Where a node led before, its successor leads after. */
  lemma EndMoves(E: set<Edge>, sub: Net, vn: nat, last: nat)
    requires WellFormed(sub) && Fresh(E, vn) && OutEdges(E, last) == {}
    requires last != vn && (last in sub.nodes ==> OutEdges(Quotient(E, sub, vn), vn) == {})
    ensures OutEdges(Quotient(E, sub, vn), Rep(sub.nodes, vn, last)) == {}
  {
    if last !in sub.nodes {
      assert forall e {:trigger e in E} :: e in E ==> e.src != last by {
        assert forall e {:trigger e in E} :: e in E && e.src == last ==> e in OutEdges(E, last);
      }
    }
  }

  lemma EndingMoves(g0: GraphState, h: GraphState, sub: Net, vn: nat)
    requires Contractible(g0, sub, vn) && Virtualized(g0, h, sub, vn) && Ending(g0) && sub.nodes != {}
    requires forall n :: n in sub.nodes && OutEdges(g0.edges, n) == {} ==> OutEdges(h.edges, vn) == {}
    ensures Ending(h)
  {
    FreshId(g0);
    forall n' | n' in h.nodes ensures Ends(h, n') {
      var n := if n' == vn then (var x :| x in sub.nodes; x) else n';
      assert Rep(sub.nodes, vn, n) == n';
      assert Ends(g0, n);
      var last :| EndsAt(g0, n, last);
      EndMoves(g0.edges, sub, vn, last);
      KeepsReach(g0.edges, sub, vn, n, last);
      assert EndsAt(h, n', Rep(sub.nodes, vn, last));
    }
  }

  lemma RegionEnd(g0: GraphState, h: GraphState, sub: Net, s: nat, t: nat, vn: nat, n: nat)
    requires RegionStep(g0, h, sub, s, t, vn) && n in sub.nodes && OutEdges(g0.edges, n) == {}
    ensures OutEdges(h.edges, vn) == {}
  {
    assert forall e {:trigger e in g0.edges} :: e in g0.edges && e.src == n ==> e in OutEdges(g0.edges, n);
    if n != t {
      ReachIsPlus(sub.edges, n, t);
    }
    FreshId(g0);
  }

  lemma RegionEnding(g0: GraphState, h: GraphState, sub: Net, s: nat, t: nat, vn: nat)
    requires RegionStep(g0, h, sub, s, t, vn) && Ending(g0)
    ensures Ending(h)
  {
    forall n | n in sub.nodes && OutEdges(g0.edges, n) == {} ensures OutEdges(h.edges, vn) == {} {
      RegionEnd(g0, h, sub, s, t, vn, n);
    }
    assert s in sub.nodes;
    EndingMoves(g0, h, sub, vn);
  }

  lemma FreshHome(g0: GraphState, home: map<nat, nat>)
    requires Valid(g0) && home.Values == g0.nodes
    ensures g0.nextNID !in home.Values && Fresh(g0.edges, g0.nextNID)
  {
    FreshId(g0);
  }

  lemma RegionIsSound(E0: set<Edge>, home: map<nat, nat>, g0: GraphState, h: GraphState, sub: Net, s: nat, t: nat,
                      vn: nat)
    requires RegionStep(g0, h, sub, s, t, vn) && home.Values == g0.nodes
    requires Sound(E0, g0.edges, home)
    ensures Sound(E0, h.edges, Move(home, sub.nodes, vn))
    ensures Faithful(E0, g0.edges, home) ==> Faithful(E0, h.edges, Move(home, sub.nodes, vn))
  {
    FreshHome(g0, home);
    SoundRegionStep(E0, g0.edges, home, sub, s, t, vn);
    if Faithful(E0, g0.edges, home) {
      FaithfulStep(E0, g0.edges, home, sub, s, t, vn);
    }
  }

  lemma StepIsLighter(g0: GraphState, h: GraphState, sub: Net, vn: nat)
    requires Contractible(g0, sub, vn) && Virtualized(g0, h, sub, vn) && sub.edges != {}
    ensures Lighter(g0, h) && |h.edges| < |g0.edges|
  {
    QuotientIsSmaller(g0.edges, sub, vn);
    TotalDoesNotRise(g0, h, sub, vn);
  }

  lemma RegionHasEdges(E: set<Edge>, sub: Net, s: nat, t: nat)
    requires Region(E, sub, s, t)
    ensures sub.edges != {} && |sub.nodes| >= 2
  {
    ReachIsPlus(sub.edges, s, t);
    assert {s, t} <= sub.nodes && |{s, t}| == 2;
    assert sub.nodes == {s, t} + (sub.nodes - {s, t});
  }

  lemma RegionKeepsAll(E0: set<Edge>, r: Run, h: GraphState, sub: Net, s: nat, t: nat, vn: nat)
    requires r in Running(E0) && RegionStep(r.g, h, sub, s, t, vn)
    ensures ProfileKept(E0, r, Run(Move(r.home, sub.nodes, vn), h))
    ensures CyclesKept(E0, r, Run(Move(r.home, sub.nodes, vn), h))
  {
    RegionStepIsNarrow(r.g, h, sub, s, t, vn);
    if Traced(E0, r.home, r.g) {
      TracedStep(E0, r.home, r.g, h, sub, vn);
    }
    RegionIsSound(E0, r.home, r.g, h, sub, s, t, vn);
    if Normal(r.g) {
      NormalStep(r.g, h, sub, s, t, vn);
    }
  }

  lemma RegionRuns(E0: set<Edge>, r: Run, h: GraphState, sub: Net, s: nat, t: nat, vn: nat)
    requires r in Running(E0) && RegionStep(r.g, h, sub, s, t, vn)
    ensures Run(Move(r.home, sub.nodes, vn), h) in Running(E0)
    ensures Coarser(r.home, Move(r.home, sub.nodes, vn)) && Lighter(r.g, h)
  {
    RegionHasEdges(r.g.edges, sub, s, t);
    MovedHome(r.home, r.g.nodes, sub.nodes, vn);
    RegionEnding(r.g, h, sub, s, t, vn);
    RegionIsSound(E0, r.home, r.g, h, sub, s, t, vn);
    SolidStep(r.g, h, sub, vn);
    StepIsLighter(r.g, h, sub, vn);
  }

  /** Contracting a region takes a run to one that keeps everything. */
  lemma RegionAfter(E0: set<Edge>, r: Run, h: GraphState, sub: Net, s: nat, t: nat, vn: nat)
    requires r in Running(E0) && RegionStep(r.g, h, sub, s, t, vn)
    ensures Run(Move(r.home, sub.nodes, vn), h) in After(ALL, E0, r)
  {
    RegionKeepsAll(E0, r, h, sub, s, t, vn);
    RegionRuns(E0, r, h, sub, s, t, vn);
  }

  /** Contracting a region lowers the number of nodes. */
  lemma RegionShrinks(g0: GraphState, h: GraphState, sub: Net, s: nat, t: nat, vn: nat)
    requires RegionStep(g0, h, sub, s, t, vn)
    ensures |h.nodes| < |g0.nodes|
  {
    RegionHasEdges(g0.edges, sub, s, t);
    var rest := g0.nodes - sub.nodes;
    assert g0.nodes == rest + sub.nodes && |g0.nodes| == |rest| + |sub.nodes|;
    assert |h.nodes| <= |rest| + 1;
  }

  // ----- rewriting frequencies -----

  lemma SameShapeEnds(g: GraphState, h: GraphState)
    requires Ending(g) && h.nodes == g.nodes && h.edges == g.edges
    ensures Ending(h)
  {
    forall n | n in h.nodes ensures Ends(h, n) {
      assert Ends(g, n);
      var last :| EndsAt(g, n, last);
      assert EndsAt(h, n, last);
    }
  }

  lemma KCLRuns(E0: set<Edge>, r: Run, h: GraphState, big: Edge, least: nat)
    requires r in Running(E0) && big in r.g.edges && KCLStep(r.g, h, big, least)
    ensures Run(r.home, h) in Running(E0) && Coarser(r.home, r.home) && Lighter(r.g, h)
    ensures TotalFreq(h) < TotalFreq(r.g)
  {
    KCLValid(r.g, h, big, least);
    KCLSolid(r.g, h, big, least);
    SameShapeEnds(r.g, h);
  }

  lemma KCLKeepsAll(E0: set<Edge>, r: Run, h: GraphState, big: Edge, least: nat)
    requires r in Running(E0) && big in r.g.edges && KCLStep(r.g, h, big, least)
    ensures ProfileKept(E0, r, Run(r.home, h)) && CyclesKept(E0, r, Run(r.home, h))
  {
    if Normal(r.g) {
      KCLNormal(r.g, h, big, least);
    }
    if Traced(E0, r.home, r.g) {
      KCLTraced(E0, r.home, r.g, h, big, least);
    }
  }

  /** A frequency rewrite takes a run to one that keeps everything. */
  lemma KCLAfter(E0: set<Edge>, r: Run, h: GraphState, big: Edge, least: nat)
    requires r in Running(E0) && big in r.g.edges && KCLStep(r.g, h, big, least)
    ensures Run(r.home, h) in After(ALL, E0, r) && TotalFreq(h) < TotalFreq(r.g)
  {
    KCLRuns(E0, r, h, big, least);
    KCLKeepsAll(E0, r, h, big, least);
  }
}
