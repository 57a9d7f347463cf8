/** Dijkstras: cheapest path, and cheapest cycle when source and sink coincide, over a sorted
    deque with decrease-key and predecessor recovery. Costs stand for -log(weight). The deque is
    sorted in any way; how far the order of ties matters is part of the results. */
module ShortestPath {
  import opened Graphs
  import opened CycleSearch
  import opened Deque

  datatype Color = White | Grey | Black

  datatype Distance = Infinite | Finite(d: real)

  datatype DNode = DNode(distance: Distance, predecessor: Option<nat>, color: Color)

  type DMap = map<nat, DNode>
  type Costs = map<Edge, real>

  predicate Less(a: real, b: Distance) {
    b.Infinite? || a < b.d
  }

  // ----- relaxing one neighbour of the front -----

  /** First test: an edge back to a source that has no predecessor yet. */
  function CloseLoop(D: DMap, front: Entry, source: nat, e: Edge, cost: real): (r: DMap)
    requires source in D && front.nid in D && D[front.nid].distance.Finite?
    ensures r.Keys == D.Keys
  {
    if e.snk == source && D[source].predecessor.None? then
      D[source := D[source].(predecessor := Some(front.nid), distance := Finite(cost + D[front.nid].distance.d))]
    else D
  }

  /** Second test: the edge improves its sink. The comparison reads the deque's copy of the
      front's distance, the assignment reads the map's. */
  function Improve(D: DMap, Q: seq<Entry>, e: Edge, cost: real, sort: Sorting): (r: (DMap, seq<Entry>))
    requires |Q| > 0 && Q[0].nid in D && D[Q[0].nid].distance.Finite? && e.snk in D
  {
    if Less(cost + Q[0].distance, D[e.snk].distance) then
      var d := cost + D[Q[0].nid].distance.d;
      var D1 := D[e.snk := D[e.snk].(predecessor := Some(Q[0].nid), distance := Finite(d))];
      match D1[e.snk].color
      case White => (D1[e.snk := D1[e.snk].(color := Grey)], Q + [Entry(e.snk, d)])
      case Grey => (D1, sort(Decrease(Q, e.snk, d)))
      case Black => (D1, Q)
    else (D, Q)
  }

  function Relax(D: DMap, Q: seq<Entry>, source: nat, e: Edge, cost: real, sort: Sorting): (DMap, seq<Entry>)
    requires |Q| > 0 && Q[0].nid in D && source in D && e.snk in D && D[Q[0].nid].distance.Finite?
  {
    Improve(CloseLoop(D, Q[0], source, e, cost), Q, e, cost, sort)
  }

  // ----- what the search computes -----

  function WalkCost(c: Costs, p: seq<nat>): real
    requires forall i :: 0 <= i < |p| - 1 ==> Edge(p[i], p[i + 1]) in c
  {
    if |p| < 2 then 0.0
    else WalkCost(c, p[..|p| - 1]) + c[Edge(p[|p| - 2], p[|p| - 1])]
  }

  predicate NonNegative(c: Costs) {
    forall e :: e in c ==> c[e] >= 0.0
  }

  /** The costs the search really minimises: the out-edges of the source met after the
      source's own self-edge carry the cost of the self-edge on top. */
  function Inflated(c: Costs, source: nat, late: set<Edge>): (r: Costs)
    requires late == {} || Edge(source, source) in c
    ensures r.Keys == c.Keys
  {
    map e | e in c :: if e in late then c[e] + c[Edge(source, source)] else c[e]
  }

  predicate LateEdges(E: set<Edge>, source: nat, late: set<Edge>) {
    && (forall e :: e in late ==> e in E && e.src == source && e.snk != source)
    && (late != {} ==> Edge(source, source) in E)
  }

  ghost predicate Cheapest(E: set<Edge>, c: Costs, a: nat, b: nat, p: seq<nat>)
    requires E <= c.Keys
  {
    && Walk(E, a, b, p) && |p| >= 2
    && forall q :: Walk(E, a, b, q) && |q| >= 2 ==> WalkCost(c, p) <= WalkCost(c, q)
  }

  /** No closed walk through the source is cheaper than its self-edge. */
  ghost predicate SelfIsCheapest(E: set<Edge>, k: Costs, source: nat)
    requires E <= k.Keys
  {
    && Edge(source, source) in E
    && forall q :: Walk(E, source, source, q) && |q| >= 2 ==> k[Edge(source, source)] <= WalkCost(k, q)
  }

  /** Without a self-edge on the source, or when it is free, the minimised costs are the given ones. */
  lemma NothingInflated(E: set<Edge>, c: Costs, source: nat, late: set<Edge>)
    requires E <= c.Keys && LateEdges(E, source, late)
    requires Edge(source, source) !in E || c[Edge(source, source)] == 0.0
    ensures Inflated(c, source, late) == c
  {
  }

  // ----- the invariant -----

  /** `when` dates the nodes taken from the front of the deque. */
  type Dates = map<nat, nat>

  ghost predicate Dated(D: DMap, source: nat, when: Dates, front: nat) {
    source in D && front in when && source in when && forall u :: u in when ==> u in D && D[u].distance.Finite?
  }

  ghost function Val(D: DMap, source: nat, u: nat): real
    requires u in D && D[u].distance.Finite?
  {
    if u == source then 0.0 else D[u].distance.d
  }

  /** Between relaxations: `front` is being scanned, `rest` is the deque behind it. */
  ghost predicate Shape(nodes: set<nat>, source: nat, D: DMap, rest: map<nat, real>, when: Dates, front: nat) {
    && D.Keys == nodes + {source}
    && Dated(D, source, when, front)
    && (forall v :: v in rest ==> v in D && v !in when && D[v].distance == Finite(rest[v]) && D[v].color == Grey)
    && (forall v :: v in D && v !in when && v !in rest ==> D[v].distance.Infinite? && D[v].color == White)
    && (forall u :: u in when && u != front ==> D[u].color == Black)
    && (forall v :: v in D && v != source && D[v].distance.Finite? ==> D[v].predecessor.Some?)
    && (D[source].predecessor.None? ==> D[source].distance == Finite(0.0))
  }

  ghost predicate Preds(E: set<Edge>, source: nat, k: Costs, D: DMap, when: Dates, front: nat, todo: set<Edge>)
    requires E <= k.Keys && Dated(D, source, when, front)
  {
    forall v :: v in D && D[v].predecessor.Some? ==>
      var u := D[v].predecessor.value;
      && u in when && Edge(u, v) in E && Edge(u, v) !in todo
      && D[v].distance == Finite(Val(D, source, u) + k[Edge(u, v)])
      && (v in when && v != source ==> when[u] < when[v])
  }

  ghost predicate Settled(E: set<Edge>, source: nat, k: Costs, D: DMap, when: Dates, front: nat, todo: set<Edge>)
    requires E <= k.Keys && Dated(D, source, when, front)
  {
    forall e :: e in E && e.src in when && e !in todo ==>
      && e.snk in D && D[e.snk].distance.Finite? && D[e.snk].predecessor.Some?
      && D[e.snk].distance.d <= Val(D, source, e.src) + k[e]
  }

  ghost predicate Monotone(source: nat, D: DMap, rest: map<nat, real>, when: Dates, front: nat)
    requires Dated(D, source, when, front)
  {
    var top := Val(D, source, front);
    && top >= 0.0
    && (forall u :: u in when ==> Val(D, source, u) <= top)
    && (forall v :: v in rest ==> top <= rest[v])
  }

  /** The self-edge of the source, once relaxed, bounds the source's distance. */
  ghost predicate SelfEdge(E: set<Edge>, source: nat, c: Costs, D: DMap, todo: set<Edge>)
    requires E <= c.Keys && source in D
  {
    var s := Edge(source, source);
    s in E && s !in todo ==>
      && D[source].predecessor.Some? && D[source].distance.Finite?
      && D[source].distance.d <= c[s]
      && (D[source].distance.d == c[s] ==> D[source].predecessor == Some(source))
  }

  /** While the source itself is being scanned nothing has been discovered but its neighbours. */
  ghost predicate FirstScan(E: set<Edge>, source: nat, c: Costs, D: DMap, late: set<Edge>,
                            when: Dates, front: nat, todo: set<Edge>)
    requires E <= c.Keys && source in D
  {
    var s := Edge(source, source);
    front == source ==>
      && when.Keys == {source}
      && D[source].distance == Finite(if s in E && s !in todo then c[s] else 0.0)
      && (forall v :: v in D && v != source && D[v].distance.Finite? ==>
            Edge(source, v) in E && Edge(source, v) !in todo)
      && todo !! late
      && (late != {} ==> s !in todo)
  }

  ghost predicate Core(g: Net, E: set<Edge>, source: nat, c: Costs, late: set<Edge>,
                       D: DMap, rest: map<nat, real>, when: Dates, front: nat, todo: set<Edge>)
    requires E <= c.Keys
  {
    && Shape(g.nodes, source, D, rest, when, front)
    && LateEdges(E, source, late)
    && Preds(E, source, Inflated(c, source, late), D, when, front, todo)
    && Settled(E, source, Inflated(c, source, late), D, when, front, todo)
    && Monotone(source, D, rest, when, front)
    && SelfEdge(E, source, c, D, todo)
    && FirstScan(E, source, c, D, late, when, front, todo)
  }

  // ----- one relaxation keeps the invariant -----

  ghost predicate CanRelax(g: Net, E: set<Edge>, source: nat, c: Costs, late: set<Edge>,
                           D: DMap, rest: map<nat, real>, when: Dates, front: nat, todo: set<Edge>, e: Edge)
    requires E <= c.Keys
  {
    && WellFormed(g) && E <= g.edges && NonNegative(c)
    && Core(g, E, source, c, late, D, rest, when, front, todo)
    && e in E && e in todo && (forall f :: f in todo ==> f.src == front)
  }

  ghost predicate Fronted(g: Net, E: set<Edge>, source: nat, c: Costs, late: set<Edge>,
                          D: DMap, Q: seq<Entry>, when: Dates, front: nat, todo: set<Edge>)
    requires E <= c.Keys
  {
    && |Q| > 0 && Distinct(Q)
    && Core(g, E, source, c, late, D, View(Q[1..]), when, front, todo)
    && Q[0] == Entry(front, Val(D, source, front))
  }

  lemma SettledMore(E: set<Edge>, source: nat, k: Costs, D: DMap, when: Dates, front: nat, todo: set<Edge>, e: Edge)
    requires E <= k.Keys && Dated(D, source, when, front) && e in E && e.src in when
    requires e.snk in D && D[e.snk].distance.Finite? && D[e.snk].predecessor.Some?
    requires D[e.snk].distance.d <= Val(D, source, e.src) + k[e]
    requires Preds(E, source, k, D, when, front, todo) && Settled(E, source, k, D, when, front, todo)
    ensures Preds(E, source, k, D, when, front, todo - {e}) && Settled(E, source, k, D, when, front, todo - {e})
  {
  }

  function Rewired(D: DMap, source: nat, d: real, u: nat): DMap
    requires source in D
  {
    D[source := DNode(Finite(d), Some(u), D[source].color)]
  }

  lemma RewiredShape(nodes: set<nat>, source: nat, D: DMap, rest: map<nat, real>, when: Dates, front: nat, d: real)
    requires Shape(nodes, source, D, rest, when, front) && Monotone(source, D, rest, when, front)
    ensures Shape(nodes, source, Rewired(D, source, d, front), rest, when, front)
    ensures Monotone(source, Rewired(D, source, d, front), rest, when, front)
  {
  }

  /** A new value for the source's entry alone. */
  lemma RewiredPreds(E: set<Edge>, source: nat, k: Costs, D: DMap, when: Dates, front: nat, todo: set<Edge>, e: Edge,
                     now: real)
    requires E <= k.Keys && e in E && e in todo && e.snk == source && e.src == front
    requires Dated(D, source, when, front) && now == Val(D, source, front) + k[e]
    requires Preds(E, source, k, D, when, front, todo)
    ensures Preds(E, source, k, Rewired(D, source, now, front), when, front, todo - {e})
  {
    var D' := Rewired(D, source, now, front);
    forall v | v in D' && D'[v].predecessor.Some?
      ensures var u := D'[v].predecessor.value;
        && u in when && Edge(u, v) in E && Edge(u, v) !in todo - {e}
        && D'[v].distance == Finite(Val(D', source, u) + k[Edge(u, v)])
        && (v in when && v != source ==> when[u] < when[v])
    {
      if v == source {
        assert Edge(front, source) == e;
      }
    }
  }

  lemma RewiredSettled(E: set<Edge>, source: nat, k: Costs, D: DMap, when: Dates, front: nat, todo: set<Edge>,
                       e: Edge, now: real)
    requires E <= k.Keys && e in E && e in todo && e.snk == source && e.src == front
    requires Dated(D, source, when, front) && now == Val(D, source, front) + k[e]
    requires Settled(E, source, k, D, when, front, todo)
    requires D[source].predecessor.Some? ==> now <= D[source].distance.d
    ensures Settled(E, source, k, Rewired(D, source, now, front), when, front, todo - {e})
  {
  }

  lemma RewiredSelf(E: set<Edge>, source: nat, c: Costs, late: set<Edge>, D: DMap, when: Dates, front: nat,
                    todo: set<Edge>, e: Edge, d: real)
    requires E <= c.Keys && e in E && e in todo && e.snk == source && e.src == front
    requires Dated(D, source, when, front)
    requires front == source ==> d == c[e]
    requires D[source].predecessor.Some? ==> d < D[source].distance.d
    requires SelfEdge(E, source, c, D, todo) && FirstScan(E, source, c, D, late, when, front, todo)
    requires D[source].predecessor.None? && front != source ==>
      Edge(source, source) !in E || Edge(source, source) in todo
    requires Edge(source, source) in todo ==> front == source
    ensures SelfEdge(E, source, c, Rewired(D, source, d, front), todo - {e})
    ensures FirstScan(E, source, c, Rewired(D, source, d, front), late, when, front, todo - {e})
  {
  }

  /** What the two tests make of an edge back to the source. */
  lemma RelaxSourceEntry(D: DMap, Q: seq<Entry>, source: nat, e: Edge, cost: real, sort: Sorting, now: real)
    returns (D': DMap)
    requires |Q| > 0 && Q[0].nid in D && source in D && e.snk == source
    requires D[Q[0].nid].distance.Finite? && D[source].distance.Finite?
    requires now == cost + Q[0].distance == cost + D[Q[0].nid].distance.d
    requires D[source].color == Black || (Q[0].nid == source && D[source].predecessor.None?)
    ensures (D', Q) == Relax(D, Q, source, e, cost, sort)
    ensures D' == if D[source].predecessor.None? || now < D[source].distance.d
                  then Rewired(D, source, now, Q[0].nid) else D
  {
    D' := Relax(D, Q, source, e, cost, sort).0;
  }

  lemma RewireCore(g: Net, E: set<Edge>, source: nat, c: Costs, k: Costs, late: set<Edge>,
                   D: DMap, rest: map<nat, real>, when: Dates, front: nat, todo: set<Edge>, e: Edge, now: real)
    requires E <= c.Keys && E <= k.Keys && e in E && k[e] == c[e]
    requires e in todo && e.snk == source && e.src == front && forall f :: f in todo ==> f.src == front
    requires Shape(g.nodes, source, D, rest, when, front) && Monotone(source, D, rest, when, front)
    requires Preds(E, source, k, D, when, front, todo) && Settled(E, source, k, D, when, front, todo)
    requires SelfEdge(E, source, c, D, todo) && FirstScan(E, source, c, D, late, when, front, todo)
    requires now == Val(D, source, front) + c[e]
    requires D[source].predecessor.Some? ==> now < D[source].distance.d
    ensures var D' := Rewired(D, source, now, front);
      && Shape(g.nodes, source, D', rest, when, front) && Monotone(source, D', rest, when, front)
      && Preds(E, source, k, D', when, front, todo - {e}) && Settled(E, source, k, D', when, front, todo - {e})
      && SelfEdge(E, source, c, D', todo - {e}) && FirstScan(E, source, c, D', late, when, front, todo - {e})
  {
    RewiredShape(g.nodes, source, D, rest, when, front, now);
    RewiredPreds(E, source, k, D, when, front, todo, e, now);
    RewiredSettled(E, source, k, D, when, front, todo, e, now);
    RewiredSelf(E, source, c, late, D, when, front, todo, e, now);
  }

  /** The edge leads back to the source. */
  lemma RelaxIntoSource(g: Net, E: set<Edge>, source: nat, c: Costs, late: set<Edge>,
                        D: DMap, Q: seq<Entry>, when: Dates, front: nat, todo: set<Edge>, e: Edge, sort: Sorting)
    returns (D': DMap)
    requires E <= c.Keys && Fronted(g, E, source, c, late, D, Q, when, front, todo)
    requires CanRelax(g, E, source, c, late, D, View(Q[1..]), when, front, todo, e)
    requires e.snk == source
    ensures (D', Q) == Relax(D, Q, source, e, c[e], sort)
    ensures Fronted(g, E, source, c, late, D', Q, when, front, todo - {e})
  {
    var now := c[e] + Val(D, source, front);
    assert front == source ==> D[source].predecessor.None?;
    D' := RelaxSourceEntry(D, Q, source, e, c[e], sort, now);
    if D[source].predecessor.None? || now < D[source].distance.d {
      RewireCore(g, E, source, c, Inflated(c, source, late), late, D, View(Q[1..]), when, front, todo, e, now);
      assert Val(D', source, front) == Val(D, source, front);
    } else {
      SettledMore(E, source, Inflated(c, source, late), D, when, front, todo, e);
    }
  }

  ghost predicate Onto(source: nat, D: DMap, when: Dates, e: Edge, d: real) {
    && e.snk != source && e.snk !in when && e.snk in D
    && (D[e.snk].distance.Infinite? || d < D[e.snk].distance.d)
  }

  function Placed(D: DMap, e: Edge, d: real): DMap {
    D[e.snk := DNode(Finite(d), Some(e.src), Grey)]
  }

  lemma OntoShape(nodes: set<nat>, source: nat, D: DMap, rest: map<nat, real>, when: Dates, front: nat, e: Edge,
                  d: real)
    requires Shape(nodes, source, D, rest, when, front) && Onto(source, D, when, e, d)
    ensures Shape(nodes, source, Placed(D, e, d), rest[e.snk := d], when, front)
  {
  }

  lemma OntoLinks(E: set<Edge>, source: nat, k: Costs, D: DMap, rest: map<nat, real>,
                  when: Dates, front: nat, todo: set<Edge>, e: Edge, d: real)
    requires E <= k.Keys && source in D && e in E && e in todo && e.src in when
    requires Dated(D, source, when, front)
    requires Onto(source, D, when, e, d) && d == Val(D, source, e.src) + k[e]
    requires Preds(E, source, k, D, when, front, todo) && Settled(E, source, k, D, when, front, todo)
    ensures Preds(E, source, k, Placed(D, e, d), when, front, todo - {e})
    ensures Settled(E, source, k, Placed(D, e, d), when, front, todo - {e})
  {
    var D' := Placed(D, e, d);
    assert forall w :: w in when ==> w != e.snk && Val(D', source, w) == Val(D, source, w);
  }

  /** The edge improves a node that has not been taken from the front. */
  lemma RelaxOnto(g: Net, E: set<Edge>, source: nat, c: Costs, late: set<Edge>, late': set<Edge>,
                  D: DMap, rest: map<nat, real>, when: Dates, front: nat, todo: set<Edge>, e: Edge, d: real)
    requires E <= c.Keys
    requires CanRelax(g, E, source, c, late, D, rest, when, front, todo, e)
    requires Onto(source, D, when, e, d)
    requires late' == NextLate(E, source, late, when, front, todo, e)
    requires d == Val(D, source, e.src) + Inflated(c, source, late')[e]
    ensures Core(g, E, source, c, late', Placed(D, e, d), rest[e.snk := d], when, front, todo - {e})
  {
    var k, k' := Inflated(c, source, late), Inflated(c, source, late');
    var rest' := rest[e.snk := d];
    SwapCosts(E, source, k, k', D, when, front, todo, e);
    OntoShape(g.nodes, source, D, rest, when, front, e, d);
    OntoLinks(E, source, k', D, rest, when, front, todo, e, d);
    OntoMonotone(source, D, rest, when, front, e, d);
    OntoSource(E, source, c, late, D, when, front, todo, e, d);
  }

  lemma OntoSource(E: set<Edge>, source: nat, c: Costs, late: set<Edge>, D: DMap, when: Dates, front: nat,
                   todo: set<Edge>, e: Edge, d: real)
    requires E <= c.Keys && Dated(D, source, when, front) && Onto(source, D, when, e, d)
    requires e in E && e in todo && e.src == front
    requires SelfEdge(E, source, c, D, todo) && FirstScan(E, source, c, D, late, when, front, todo)
    ensures SelfEdge(E, source, c, Placed(D, e, d), todo - {e})
    ensures FirstScan(E, source, c, Placed(D, e, d), NextLate(E, source, late, when, front, todo, e), when, front,
                      todo - {e})
  {
  }

  lemma SwapCosts(E: set<Edge>, source: nat, k: Costs, k': Costs, D: DMap, when: Dates, front: nat, todo: set<Edge>,
                  e: Edge)
    requires E <= k.Keys && E <= k'.Keys && Dated(D, source, when, front)
    requires e in todo && forall f :: f in E && f != e ==> k[f] == k'[f]
    requires Preds(E, source, k, D, when, front, todo) && Settled(E, source, k, D, when, front, todo)
    ensures Preds(E, source, k', D, when, front, todo) && Settled(E, source, k', D, when, front, todo)
  {
  }

  lemma OntoMonotone(source: nat, D: DMap, rest: map<nat, real>, when: Dates, front: nat, e: Edge, d: real)
    requires source in D && e.src == front
    requires Dated(D, source, when, front)
    requires Onto(source, D, when, e, d) && d >= Val(D, source, e.src)
    requires Monotone(source, D, rest, when, front)
    ensures Monotone(source, Placed(D, e, d), rest[e.snk := d], when, front)
  {
    var D' := Placed(D, e, d);
    assert forall w :: w in when ==> w != e.snk && Val(D', source, w) == Val(D, source, w);
  }

  /** An out-edge of the source met after the source's self-edge is late. */
  ghost function NextLate(E: set<Edge>, source: nat, late: set<Edge>, when: Dates, front: nat, todo: set<Edge>,
                          e: Edge): set<Edge> {
    if front == source && Edge(source, source) in E && Edge(source, source) !in todo then late + {e} else late
  }

  lemma DiscoverStep(D: DMap, Q: seq<Entry>, source: nat, e: Edge, cost: real, sort: Sorting, d: real)
    requires |Q| > 0 && Q[0].nid in D && source in D && e.snk in D && Q[0].nid == e.src
    requires D[e.src].distance.Finite? && d == cost + D[e.src].distance.d
    requires e.snk != source && D[e.snk].distance.Infinite? && D[e.snk].color == White
    ensures Relax(D, Q, source, e, cost, sort) == (Placed(D, e, d), Q + [Entry(e.snk, d)])
  {
    var D1 := D[e.snk := DNode(Finite(d), Some(e.src), White)];
    assert D1[e.snk := DNode(Finite(d), Some(e.src), Grey)] == Placed(D, e, d);
  }

  lemma DecreaseStep(D: DMap, Q: seq<Entry>, source: nat, e: Edge, cost: real, sort: Sorting, d: real)
    requires |Q| > 0 && Q[0].nid in D && source in D && e.snk in D && Q[0].nid == e.src
    requires D[e.src].distance.Finite? && d == cost + D[e.src].distance.d == cost + Q[0].distance
    requires e.snk != source && D[e.snk].distance.Finite? && d < D[e.snk].distance.d && D[e.snk].color == Grey
    ensures Relax(D, Q, source, e, cost, sort) == (Placed(D, e, d), sort(Decrease(Q, e.snk, d)))
  {
  }

  /** The edge discovers a node. */
  lemma RelaxDiscover(g: Net, E: set<Edge>, source: nat, c: Costs, late: set<Edge>, late': set<Edge>,
                      D: DMap, Q: seq<Entry>, when: Dates, front: nat, todo: set<Edge>, e: Edge, d: real)
    requires E <= c.Keys && Fronted(g, E, source, c, late, D, Q, when, front, todo)
    requires CanRelax(g, E, source, c, late, D, View(Q[1..]), when, front, todo, e)
    requires e.snk != source && D[e.snk].distance.Infinite?
    requires late' == NextLate(E, source, late, when, front, todo, e)
    requires d == c[e] + D[e.src].distance.d == Val(D, source, e.src) + Inflated(c, source, late')[e]
    ensures Fronted(g, E, source, c, late', Placed(D, e, d), Q + [Entry(e.snk, d)], when, front, todo - {e})
  {
    AppendedQueue(Q, e.snk, d);
    RelaxOnto(g, E, source, c, late, late', D, View(Q[1..]), when, front, todo, e, d);
    assert Val(Placed(D, e, d), source, front) == Val(D, source, front);
  }

  // ----- when the order of ties does not matter -----

  /** No two walks from the source to different nodes cost the same. */
  ghost predicate Untied(E: set<Edge>, c: Costs, source: nat)
    requires E <= c.Keys
  {
    forall p, q {:trigger IsWalk(E, p), IsWalk(E, q)} ::
      IsWalk(E, p) && IsWalk(E, q) && p[0] == source && q[0] == source && p[|p| - 1] != q[|q| - 1] ==>
      WalkCost(c, p) != WalkCost(c, q)
  }

  predicate AllFree(E: set<Edge>, c: Costs)
    requires E <= c.Keys
  {
    forall e {:trigger e in E} :: e in E ==> c[e] == 0.0
  }

  /** The sort keeps a cheapest front where it is, or there are no ties, or nothing but ties. */
  ghost predicate Orderly(E: set<Edge>, c: Costs, source: nat, sort: Sorting)
    requires E <= c.Keys
  {
    Steady(sort) || Untied(E, c, source) || AllFree(E, c)
  }

  lemma CostSnoc(E: set<Edge>, c: Costs, p: seq<nat>, v: nat)
    requires E <= c.Keys && IsWalk(E, p) && Edge(p[|p| - 1], v) in E
    ensures IsWalk(E, p + [v]) && WalkCost(c, p + [v]) == WalkCost(c, p) + c[Edge(p[|p| - 1], v)]
  {
    var r := p + [v];
    forall i | 0 <= i < |r| - 1 ensures Edge(r[i], r[i + 1]) in E {
      if i < |p| - 1 {
        assert r[i] == p[i] && r[i + 1] == p[i + 1];
      }
    }
    assert r[..|r| - 1] == p;
  }

  /** One more edge, at the costs the search minimises: a late edge carries the self-edge. */
  lemma InflatedSnoc(E: set<Edge>, source: nat, c: Costs, late: set<Edge>, q: seq<nat>, e: Edge) returns (p: seq<nat>)
    requires E <= c.Keys && LateEdges(E, source, late) && IsWalk(E, q) && q[0] == source && e in E
    requires q[|q| - 1] == e.src
    requires e.src == source ==> q == [source]
    ensures IsWalk(E, p) && p[0] == source && p[|p| - 1] == e.snk
    ensures WalkCost(c, p) == WalkCost(c, q) + Inflated(c, source, late)[e]
  {
    if e in late {
      CostSnoc(E, c, [source], source);
      CostSnoc(E, c, [source, source], e.snk);
      assert [source] + [source] == [source, source] && [source, source] + [e.snk] == [source, source, e.snk];
      p := [source, source, e.snk];
    } else {
      CostSnoc(E, c, q, e.snk);
      p := q + [e.snk];
    }
  }

  /** The recorded distances are the costs of walks. */
  lemma {:induction false} ValueIsWalk(E: set<Edge>, source: nat, c: Costs, late: set<Edge>, D: DMap, when: Dates,
                                       front: nat, todo: set<Edge>, u: nat) returns (p: seq<nat>)
    requires E <= c.Keys && Dated(D, source, when, front) && LateEdges(E, source, late)
    requires Preds(E, source, Inflated(c, source, late), D, when, front, todo)
    requires forall v :: v in D && v != source && D[v].distance.Finite? ==> D[v].predecessor.Some?
    requires u in when
    ensures IsWalk(E, p) && p[0] == source && p[|p| - 1] == u && WalkCost(c, p) == Val(D, source, u)
    ensures u == source ==> p == [source]
    decreases when[u]
  {
    if u == source {
      p := [source];
    } else {
      assert D[u].predecessor.Some?;
      var w := D[u].predecessor.value;
      assert w in when && Edge(w, u) in E;
      var q := ValueIsWalk(E, source, c, late, D, when, front, todo, w);
      p := InflatedSnoc(E, source, c, late, q, Edge(w, u));
    }
  }

  lemma DistanceIsWalk(E: set<Edge>, source: nat, c: Costs, late: set<Edge>, D: DMap, when: Dates,
                       front: nat, todo: set<Edge>, v: nat) returns (p: seq<nat>)
    requires E <= c.Keys && Dated(D, source, when, front) && LateEdges(E, source, late)
    requires Preds(E, source, Inflated(c, source, late), D, when, front, todo)
    requires forall v :: v in D && v != source && D[v].distance.Finite? ==> D[v].predecessor.Some?
    requires v != source && v in D && D[v].distance.Finite?
    ensures IsWalk(E, p) && p[0] == source && p[|p| - 1] == v && WalkCost(c, p) == D[v].distance.d
  {
    assert D[v].predecessor.Some?;
    var u := D[v].predecessor.value;
    assert u in when && Edge(u, v) in E;
    var q := ValueIsWalk(E, source, c, late, D, when, front, todo, u);
    p := InflatedSnoc(E, source, c, late, q, Edge(u, v));
  }

  lemma {:induction false} AllFreeWalk(E: set<Edge>, c: Costs, p: seq<nat>)
    requires E <= c.Keys && AllFree(E, c) && IsWalk(E, p)
    ensures WalkCost(c, p) == 0.0
  {
    if |p| >= 2 {
      var q := p[..|p| - 1];
      assert forall i :: 0 <= i < |q| - 1 ==> Edge(q[i], q[i + 1]) == Edge(p[i], p[i + 1]);
      AllFreeWalk(E, c, q);
      assert Edge(p[|p| - 2], p[|p| - 2 + 1]) in E;
    }
  }

  /** With free edges no distance is improved twice: nothing is re-sorted in mid-scan. */
  lemma NothingImproves(g: Net, E: set<Edge>, source: nat, c: Costs, late: set<Edge>,
                        D: DMap, Q: seq<Entry>, when: Dates, front: nat, todo: set<Edge>, e: Edge)
    requires E <= c.Keys && Fronted(g, E, source, c, late, D, Q, when, front, todo) && AllFree(E, c) && NonNegative(c)
    requires e in E && e.snk != source && e.snk in D && D[e.snk].distance.Finite?
    ensures c[e] + Q[0].distance >= D[e.snk].distance.d
  {
    var p := DistanceIsWalk(E, source, c, late, D, when, front, todo, e.snk);
    AllFreeWalk(E, c, p);
  }

  /** What the re-sorted deque holds behind the front: the improved node and the other waiting ones. */
  lemma {:induction false} DecreasedEntries(Q: seq<Entry>, v: nat, d: real, i: nat)
    requires Distinct(Q) && i < |Q|
    ensures var S := Decrease(Q, v, d); S[i] == (if Q[i].nid == v then Entry(v, d) else Q[i])
    ensures Q[i].nid in View(Q) && View(Q)[Q[i].nid] == Q[i].distance
  {
    if i > 0 {
      DecreasedEntries(Q[1..], v, d, i - 1);
    }
  }

  /** Without ties the front is strictly cheaper than what waits. */
  lemma FrontIsStrict(g: Net, E: set<Edge>, source: nat, c: Costs, late: set<Edge>,
                      D: DMap, Q: seq<Entry>, when: Dates, front: nat, todo: set<Edge>, v: nat)
    requires E <= c.Keys && Fronted(g, E, source, c, late, D, Q, when, front, todo) && Untied(E, c, source)
    requires v in View(Q[1..])
    ensures Q[0].distance < View(Q[1..])[v]
  {
    var p := ValueIsWalk(E, source, c, late, D, when, front, todo, front);
    var q := DistanceIsWalk(E, source, c, late, D, when, front, todo, v);
    assert IsWalk(E, p) && IsWalk(E, q);
  }

  /** And than an improved distance. */
  lemma FrontIsStrictlyBelow(g: Net, E: set<Edge>, source: nat, c: Costs, late: set<Edge>,
                             D: DMap, Q: seq<Entry>, when: Dates, front: nat, todo: set<Edge>, e: Edge)
    requires E <= c.Keys && Fronted(g, E, source, c, late, D, Q, when, front, todo) && Untied(E, c, source)
    requires e in E && e.src == front && e.snk != front && c[e] >= 0.0
    ensures Q[0].distance < c[e] + Q[0].distance
  {
    var p := ValueIsWalk(E, source, c, late, D, when, front, todo, front);
    CostSnoc(E, c, p, e.snk);
    assert IsWalk(E, p) && IsWalk(E, p + [e.snk]);
  }

  lemma StrictBehind(g: Net, E: set<Edge>, source: nat, c: Costs, late: set<Edge>,
                     D: DMap, Q: seq<Entry>, when: Dates, front: nat, todo: set<Edge>, e: Edge, d: real)
    requires E <= c.Keys && Fronted(g, E, source, c, late, D, Q, when, front, todo) && Untied(E, c, source)
    requires e in E && e.src == front && e.snk != front && c[e] >= 0.0 && d == c[e] + Q[0].distance
    ensures var S := Decrease(Q, e.snk, d); S[0] == Q[0] && forall i :: 1 <= i < |S| ==> S[0].distance < S[i].distance
  {
    var S := Decrease(Q, e.snk, d);
    DecreasedBehind(Q, e.snk, d);
    FrontIsStrictlyBelow(g, E, source, c, late, D, Q, when, front, todo, e);
    forall i | 1 <= i < |S| ensures S[0].distance < S[i].distance {
      if S[i].nid != e.snk {
        FrontIsStrict(g, E, source, c, late, D, Q, when, front, todo, S[i].nid);
      }
    }
  }

  lemma CheapestBehind(Q: seq<Entry>, v: nat, d: real)
    requires |Q| > 0 && Distinct(Q) && v != Q[0].nid && Q[0].distance <= d
    requires forall w :: w in View(Q[1..]) ==> Q[0].distance <= View(Q[1..])[w]
    ensures CheapestFirst(Decrease(Q, v, d)) && Decrease(Q, v, d)[0] == Q[0]
  {
    DecreasedBehind(Q, v, d);
  }

  /** Re-sorting in mid-scan leaves the front where it is. */
  lemma FrontStays(g: Net, E: set<Edge>, source: nat, c: Costs, late: set<Edge>,
                   D: DMap, Q: seq<Entry>, when: Dates, front: nat, todo: set<Edge>, e: Edge, sort: Sorting, d: real)
    requires E <= c.Keys && Fronted(g, E, source, c, late, D, Q, when, front, todo) && NonNegative(c)
    requires Sorts(sort) && Orderly(E, c, source, sort)
    requires e in E && e.src == front && e.snk != source && e.snk in View(Q[1..]) && e.snk != front
    requires d == c[e] + Q[0].distance < D[e.snk].distance.d
    ensures var R := sort(Decrease(Q, e.snk, d)); |R| > 0 && R[0] == Q[0]
  {
    DecreaseFacts(Q, e.snk, d);
    if AllFree(E, c) {
      NothingImproves(g, E, source, c, late, D, Q, when, front, todo, e);
    } else if Untied(E, c, source) {
      StrictBehind(g, E, source, c, late, D, Q, when, front, todo, e, d);
      StrictStays(sort, Decrease(Q, e.snk, d));
    } else {
      CheapestBehind(Q, e.snk, d);
    }
  }

  lemma DecreasedBehind(Q: seq<Entry>, v: nat, d: real)
    requires Distinct(Q) && |Q| > 0 && v != Q[0].nid
    ensures var S := Decrease(Q, v, d);
      && S[0] == Q[0]
      && (forall i {:trigger S[i]} :: 1 <= i < |S| ==>
            if S[i].nid == v then S[i].distance == d
            else S[i].nid in View(Q[1..]) && View(Q[1..])[S[i].nid] == S[i].distance)
  {
    var S := Decrease(Q, v, d);
    forall i | 1 <= i < |S|
      ensures if S[i].nid == v then S[i].distance == d
              else S[i].nid in View(Q[1..]) && View(Q[1..])[S[i].nid] == S[i].distance
    {
      DecreasedEntries(Q[1..], v, d, i - 1);
      assert S[1..] == Decrease(Q[1..], v, d);
      assert S[i] == S[1..][i - 1];
    }
  }

  /** The edge improves a node that waits in the deque. */
  lemma RelaxDecrease(g: Net, E: set<Edge>, source: nat, c: Costs, late: set<Edge>,
                      D: DMap, Q: seq<Entry>, when: Dates, front: nat, todo: set<Edge>, e: Edge, sort: Sorting, d: real)
    requires E <= c.Keys && Fronted(g, E, source, c, late, D, Q, when, front, todo)
    requires CanRelax(g, E, source, c, late, D, View(Q[1..]), when, front, todo, e)
    requires Sorts(sort) && Orderly(E, c, source, sort)
    requires e.snk != source && e.snk in View(Q[1..]) && front != source
    requires d == c[e] + Q[0].distance < D[e.snk].distance.d
    ensures var R := sort(Decrease(Q, e.snk, d));
      |R| > 0 && R[0] == Q[0] && Fronted(g, E, source, c, late, Placed(D, e, d), R, when, front, todo - {e})
  {
    FrontStays(g, E, source, c, late, D, Q, when, front, todo, e, sort, d);
    DecreasedQueue(sort, Q, e.snk, d);
    RelaxOnto(g, E, source, c, late, late, D, View(Q[1..]), when, front, todo, e, d);
    assert Val(Placed(D, e, d), source, front) == Val(D, source, front);
  }

  /** The edge brings nothing. */
  lemma RelaxNothing(g: Net, E: set<Edge>, source: nat, c: Costs, late: set<Edge>,
                     D: DMap, Q: seq<Entry>, when: Dates, front: nat, todo: set<Edge>, e: Edge, sort: Sorting)
    requires E <= c.Keys && Fronted(g, E, source, c, late, D, Q, when, front, todo)
    requires CanRelax(g, E, source, c, late, D, View(Q[1..]), when, front, todo, e)
    requires e.snk != source && D[e.snk].distance.Finite? && front != source
    requires c[e] + Q[0].distance >= D[e.snk].distance.d
    ensures Relax(D, Q, source, e, c[e], sort) == (D, Q)
    ensures Core(g, E, source, c, late, D, View(Q[1..]), when, front, todo - {e})
  {
    SettledMore(E, source, Inflated(c, source, late), D, when, front, todo, e);
  }

  /** Every relaxation of an edge of the front keeps the invariant, when the order of ties does not
      matter or nothing is re-sorted yet. */
  lemma RelaxKeeps(g: Net, E: set<Edge>, source: nat, c: Costs, late: set<Edge>,
                   D: DMap, Q: seq<Entry>, when: Dates, front: nat, todo: set<Edge>, e: Edge, sort: Sorting)
    returns (D': DMap, Q': seq<Entry>, late': set<Edge>)
    requires E <= c.Keys && Fronted(g, E, source, c, late, D, Q, when, front, todo)
    requires CanRelax(g, E, source, c, late, D, View(Q[1..]), when, front, todo, e)
    requires Sorts(sort) && (front == source || Orderly(E, c, source, sort))
    ensures (D', Q') == Relax(D, Q, source, e, c[e], sort) && |Q'| > 0 && Q'[0] == Q[0]
    ensures Fronted(g, E, source, c, late', D', Q', when, front, todo - {e})
  {
    D', Q', late' := D, Q, late;
    if e.snk == source {
      D' := RelaxIntoSource(g, E, source, c, late, D, Q, when, front, todo, e, sort);
    } else {
      var d := NewDistance(E, source, c, late, D, when, front, todo, e);
      if D[e.snk].distance.Infinite? {
        late' := NextLate(E, source, late, when, front, todo, e);
        DiscoverStep(D, Q, source, e, c[e], sort, d);
        RelaxDiscover(g, E, source, c, late, late', D, Q, when, front, todo, e, d);
        D', Q' := Placed(D, e, d), Q + [Entry(e.snk, d)];
      } else if c[e] + Q[0].distance < D[e.snk].distance.d {
        DecreaseStep(D, Q, source, e, c[e], sort, d);
        RelaxDecrease(g, E, source, c, late, D, Q, when, front, todo, e, sort, d);
        D', Q' := Placed(D, e, d), sort(Decrease(Q, e.snk, d));
      } else {
        RelaxNothing(g, E, source, c, late, D, Q, when, front, todo, e, sort);
      }
    }
  }

  /** The value the assignment writes, read off the map's distance of the front. */
  lemma NewDistance(E: set<Edge>, source: nat, c: Costs, late: set<Edge>,
                    D: DMap, when: Dates, front: nat, todo: set<Edge>, e: Edge) returns (d: real)
    requires E <= c.Keys && Dated(D, source, when, front)
    requires e in E && e in todo && e.src == front && e.snk != source
    requires LateEdges(E, source, late) && FirstScan(E, source, c, D, late, when, front, todo)
    ensures d == c[e] + D[e.src].distance.d
    ensures LateEdges(E, source, NextLate(E, source, late, when, front, todo, e))
    ensures d == Val(D, source, e.src) + Inflated(c, source, NextLate(E, source, late, when, front, todo, e))[e]
  {
    d := c[e] + D[e.src].distance.d;
  }

  lemma AppendedQueue(Q: seq<Entry>, v: nat, d: real)
    requires |Q| > 0 && Distinct(Q) && v != Q[0].nid && v !in View(Q[1..])
    ensures Distinct(Q + [Entry(v, d)])
    ensures View((Q + [Entry(v, d)])[1..]) == View(Q[1..])[v := d]
  {
    AppendFacts(Q, Entry(v, d));
    AppendFacts(Q[1..], Entry(v, d));
    assert (Q + [Entry(v, d)])[1..] == Q[1..] + [Entry(v, d)];
  }

  lemma DecreasedQueue(sort: Sorting, Q: seq<Entry>, v: nat, d: real)
    requires Sorts(sort) && |Q| > 0 && Distinct(Q) && v != Q[0].nid && v in View(Q[1..])
    requires |sort(Decrease(Q, v, d))| > 0 && sort(Decrease(Q, v, d))[0] == Q[0]
    ensures var R := sort(Decrease(Q, v, d));
      Distinct(R) && View(R[1..]) == View(Q[1..])[v := d]
  {
    var S := Decrease(Q, v, d);
    var R := sort(S);
    DecreaseFacts(Q, v, d);
    DecreaseFacts(Q[1..], v, d);
    assert S[1..] == Decrease(Q[1..], v, d) && S[0] == Q[0];
    SortingFacts(sort, S);
    assert View(S[1..]) == View(S) - {Q[0].nid};
    assert View(R[1..]) == View(R) - {Q[0].nid};
  }

  // ----- from one front to the next -----

  function Initial(nodes: set<nat>, source: nat): DMap {
    (map n | n in nodes :: DNode(Infinite, None, White))[source := DNode(Finite(0.0), None, White)]
  }

  lemma FirstFront(g: Net, E: set<Edge>, source: nat, c: Costs)
    requires E <= c.Keys
    ensures Fronted(g, E, source, c, {}, Initial(g.nodes, source), [Entry(source, 0.0)],
                    map[source := 0], source, OutEdges(E, source))
  {
    var Q := [Entry(source, 0.0)];
    assert Q[1..] == [];
  }

  ghost predicate Before(when: Dates, tick: nat) {
    forall u :: u in when ==> when[u] < tick
  }

  /** The front has been scanned and taken off: nothing is pending. */
  ghost predicate Rested(g: Net, E: set<Edge>, source: nat, c: Costs, late: set<Edge>,
                         D: DMap, Q: seq<Entry>, when: Dates, front: nat, tick: nat)
    requires E <= c.Keys
  {
    && Distinct(Q)
    && Core(g, E, source, c, late, D, View(Q), when, front, {})
    && D[front].color == Black
    && Before(when, tick)
  }

  function Blacken(D: DMap, u: nat): DMap
    requires u in D
  {
    D[u := D[u].(color := Black)]
  }

  lemma Retire(g: Net, E: set<Edge>, source: nat, c: Costs, late: set<Edge>,
               D: DMap, Q: seq<Entry>, when: Dates, front: nat, tick: nat)
    requires E <= c.Keys && Fronted(g, E, source, c, late, D, Q, when, front, {})
    requires Before(when, tick)
    ensures Rested(g, E, source, c, late, Blacken(D, front), Q[1..], when, front, tick)
  {
    RecolourShape(g.nodes, source, D, View(Q[1..]), when, front);
    RecolourLinks(E, source, Inflated(c, source, late), D, front, when);
    RecolourSource(E, source, c, late, D, when, front);
  }

  lemma RecolourShape(nodes: set<nat>, source: nat, D: DMap, rest: map<nat, real>, when: Dates, front: nat)
    requires Shape(nodes, source, D, rest, when, front) && Monotone(source, D, rest, when, front)
    ensures Shape(nodes, source, Blacken(D, front), rest, when, front)
    ensures Monotone(source, Blacken(D, front), rest, when, front)
  {
  }

  lemma RecolourSource(E: set<Edge>, source: nat, c: Costs, late: set<Edge>, D: DMap, when: Dates, front: nat)
    requires E <= c.Keys && Dated(D, source, when, front)
    requires SelfEdge(E, source, c, D, {}) && FirstScan(E, source, c, D, late, when, front, {})
    ensures SelfEdge(E, source, c, Blacken(D, front), {})
    ensures FirstScan(E, source, c, Blacken(D, front), late, when, front, {})
  {
  }

  lemma RecolourLinks(E: set<Edge>, source: nat, k: Costs, D: DMap, front: nat, when: Dates)
    requires E <= k.Keys && Dated(D, source, when, front)
    requires Preds(E, source, k, D, when, front, {}) && Settled(E, source, k, D, when, front, {})
    ensures Dated(Blacken(D, front), source, when, front)
    ensures Preds(E, source, k, Blacken(D, front), when, front, {})
    ensures Settled(E, source, k, Blacken(D, front), when, front, {})
  {
  }

  lemma AdvanceLinks(E: set<Edge>, source: nat, k: Costs, D: DMap, when: Dates, front: nat, next: nat, tick: nat)
    requires E <= k.Keys && Dated(D, source, when, front)
    requires next in D && next !in when && D[next].distance.Finite?
    requires Before(when, tick)
    requires Preds(E, source, k, D, when, front, {}) && Settled(E, source, k, D, when, front, {})
    ensures Preds(E, source, k, D, when[next := tick], next, OutEdges(E, next))
    ensures Settled(E, source, k, D, when[next := tick], next, OutEdges(E, next))
  {
  }

  lemma FrontView(Q: seq<Entry>)
    requires Distinct(Q) && |Q| > 0 && SortedQ(Q)
    ensures Q[0].nid in View(Q) && View(Q)[Q[0].nid] == Q[0].distance
    ensures forall v :: v in View(Q) ==> Q[0].distance <= View(Q)[v]
    ensures forall v :: v in View(Q[1..]) ==> v in View(Q) && v != Q[0].nid && View(Q)[v] == View(Q[1..])[v]
    ensures View(Q).Keys == View(Q[1..]).Keys + {Q[0].nid}
  {
    SortedView(Q);
  }

  lemma AdvanceShape(nodes: set<nat>, source: nat, D: DMap, Q: seq<Entry>, when: Dates, front: nat, tick: nat)
    requires Shape(nodes, source, D, View(Q), when, front) && Monotone(source, D, View(Q), when, front)
    requires Distinct(Q) && |Q| > 0 && SortedQ(Q) && D[front].color == Black
    ensures Shape(nodes, source, D, View(Q[1..]), when[Q[0].nid := tick], Q[0].nid)
  {
    FrontView(Q);
  }

  lemma AdvanceMonotone(nodes: set<nat>, source: nat, D: DMap, Q: seq<Entry>, when: Dates, front: nat, tick: nat)
    requires Shape(nodes, source, D, View(Q), when, front) && Monotone(source, D, View(Q), when, front)
    requires Distinct(Q) && |Q| > 0 && SortedQ(Q) && D[front].color == Black
    requires Shape(nodes, source, D, View(Q[1..]), when[Q[0].nid := tick], Q[0].nid)
    ensures Monotone(source, D, View(Q[1..]), when[Q[0].nid := tick], Q[0].nid)
  {
    FrontView(Q);
  }

  lemma Advance(g: Net, E: set<Edge>, source: nat, c: Costs, late: set<Edge>,
                D: DMap, Q0: seq<Entry>, when: Dates, front: nat, tick: nat, sort: Sorting)
    requires E <= c.Keys && Rested(g, E, source, c, late, D, Q0, when, front, tick)
    requires |Q0| > 0 && Sorts(sort)
    ensures var Q := sort(Q0);
      && |Q| > 0
      && Q[0].nid !in when
      && Fronted(g, E, source, c, late, D, Q, when[Q[0].nid := tick], Q[0].nid, OutEdges(E, Q[0].nid))
  {
    var Q := sort(Q0);
    SortingFacts(sort, Q0);
    var u := Q[0].nid;
    assert u in View(Q);
    AdvanceShape(g.nodes, source, D, Q, when, front, tick);
    AdvanceMonotone(g.nodes, source, D, Q, when, front, tick);
    AdvanceLinks(E, source, Inflated(c, source, late), D, when, front, u, tick);
  }

  /** The state at the head of the outer loop. */
  ghost predicate Ready(g: Net, E: set<Edge>, source: nat, c: Costs, late: set<Edge>,
                        D: DMap, Q: seq<Entry>, when: Dates, front: nat, tick: nat)
    requires E <= c.Keys
  {
    && when.Keys <= g.nodes + {source}
    && if tick == 0 then
         D == Initial(g.nodes, source) && Q == [Entry(source, 0.0)] && when == map[] && late == {}
       else
         Rested(g, E, source, c, late, D, Q, when, front, tick)
  }

  lemma NextFront(g: Net, E: set<Edge>, source: nat, c: Costs, late: set<Edge>,
                  D: DMap, Q: seq<Entry>, when: Dates, front: nat, tick: nat, sort: Sorting)
    requires E <= c.Keys && Ready(g, E, source, c, late, D, Q, when, front, tick) && |Q| > 0 && Sorts(sort)
    ensures |sort(Q)| > 0
    ensures var u := sort(Q)[0].nid;
      && u !in when && u in g.nodes + {source} && (u == source <==> tick == 0)
      && Before(when[u := tick], tick + 1)
      && Fronted(g, E, source, c, late, D, sort(Q), when[u := tick], u, OutEdges(E, u))
  {
    if tick == 0 {
      FirstFront(g, E, source, c);
      assert when[source := tick] == map[source := 0];
      OneSorted(sort, Entry(source, 0.0));
    } else {
      Advance(g, E, source, c, late, D, Q, when, front, tick, sort);
    }
  }

  lemma OneSorted(sort: Sorting, x: Entry)
    requires Sorts(sort)
    ensures sort([x]) == [x]
  {
    SortedSize(sort, [x]);
    assert sort([x])[0] in multiset(sort([x]));
  }

  // ----- what a finished search proves -----

  lemma CostNonNegative(c: Costs, p: seq<nat>)
    requires NonNegative(c) && forall i :: 0 <= i < |p| - 1 ==> Edge(p[i], p[i + 1]) in c
    ensures WalkCost(c, p) >= 0.0
  {
    if |p| >= 2 {
      var q := p[..|p| - 1];
      assert forall i :: 0 <= i < |q| - 1 ==> Edge(q[i], q[i + 1]) == Edge(p[i], p[i + 1]);
      CostNonNegative(c, q);
      assert Edge(p[|p| - 2], p[|p| - 2 + 1]) in c;
    }
  }

  lemma CostCons(c: Costs, a: nat, p: seq<nat>)
    requires |p| > 0 && Edge(a, p[0]) in c && forall i :: 0 <= i < |p| - 1 ==> Edge(p[i], p[i + 1]) in c
    ensures forall i :: 0 <= i < |p| ==> Edge(([a] + p)[i], ([a] + p)[i + 1]) in c
    ensures WalkCost(c, [a] + p) == c[Edge(a, p[0])] + WalkCost(c, p)
  {
    var r := [a] + p;
    forall i | 0 <= i < |p| ensures Edge(r[i], r[i + 1]) in c {
      if i > 0 {
        assert r[i] == p[i - 1] && r[i + 1] == p[i - 1 + 1];
      }
    }
    if |p| == 1 {
      assert r[..1] == [a];
    } else {
      var q := p[..|p| - 1];
      assert forall i :: 0 <= i < |q| - 1 ==> Edge(q[i], q[i + 1]) == Edge(p[i], p[i + 1]);
      CostCons(c, a, q);
      assert r[..|r| - 1] == [a] + q;
    }
  }

  ghost predicate Complete(E: set<Edge>, source: nat, k: Costs, D: DMap, when: Dates, front: nat)
    requires E <= k.Keys
  {
    && Dated(D, source, when, front)
    && Settled(E, source, k, D, when, front, {})
    && (forall v :: v in D && D[v].distance.Finite? ==> v in when)
  }

  /** No walk from the source beats the recorded distance of its end. */
  lemma Bounded(E: set<Edge>, source: nat, k: Costs, D: DMap, when: Dates, front: nat, p: seq<nat>)
    requires E <= k.Keys && NonNegative(k) && Complete(E, source, k, D, when, front)
    requires IsWalk(E, p) && p[0] == source
    ensures p[|p| - 1] in when && Val(D, source, p[|p| - 1]) <= WalkCost(k, p)
    ensures |p| >= 2 ==> D[p[|p| - 1]].predecessor.Some? && D[p[|p| - 1]].distance.d <= WalkCost(k, p)
  {
    if |p| >= 2 {
      var q := p[..|p| - 1];
      assert forall i :: 0 <= i < |q| - 1 ==> Edge(q[i], q[i + 1]) == Edge(p[i], p[i + 1]);
      Bounded(E, source, k, D, when, front, q);
      var e := Edge(p[|p| - 2], p[|p| - 2 + 1]);
      assert e in E;
      CostNonNegative(k, p);
    }
  }

  // ----- the algorithm -----

  /** The nodes of a path without its final endpoint. */
  function Stem(p: seq<nat>): set<nat> {
    set i | 0 <= i < |p| - 1 :: p[i]
  }

  ghost predicate Searchable(graph: Net, succs: Links, cost: Costs) {
    && WellFormed(graph) && LinksFor(graph.nodes, succs)
    && graph.edges <= cost.Keys && NonNegative(cost)
  }

  // ----- what holds whatever the order of ties -----

  function Whites(D: DMap): set<nat> {
    set v | v in D && D[v].color == White
  }

  /** When each distance was last set. */
  ghost predicate Stamped(D: DMap, stamp: Dates, now: nat) {
    stamp.Keys == D.Keys && forall v :: v in D ==> stamp[v] < now
  }

  /** u is closer than v, or as close and settled earlier. */
  ghost predicate Earlier(D: DMap, stamp: Dates, u: nat, v: nat) {
    && u in D && v in D && u in stamp && v in stamp && D[u].distance.Finite? && D[v].distance.Finite?
    && (D[u].distance.d < D[v].distance.d || (D[u].distance.d == D[v].distance.d && stamp[u] < stamp[v]))
  }

  /** A node but the source that has a distance has a predecessor, which is earlier or the source. */
  ghost predicate Follows(source: nat, D: DMap, stamp: Dates, v: nat)
    requires v in D
  {
    && (v != source ==> (D[v].predecessor.Some? <==> D[v].distance.Finite?))
    && (D[v].predecessor.Some? ==>
          var u := D[v].predecessor.value;
          && u in D && D[u].distance.Finite?
          && (v == source || u == source || Earlier(D, stamp, u, v)))
  }

  ghost predicate Trailed(source: nat, D: DMap, stamp: Dates) {
    && source in D && D[source].distance.Finite?
    && forall v {:trigger Follows(source, D, stamp, v)} :: v in D ==> Follows(source, D, stamp, v)
  }

  /** The deque holds the grey nodes, with their distances; the white ones have none. */
  ghost predicate GreyNodes(source: nat, D: DMap, V: map<nat, real>) {
    && source in D && source !in V && D[source].color == Black
    && (forall v {:trigger V[v]} {:trigger v in V} :: v in V ==>
          v in D && D[v].distance == Finite(V[v]) && D[v].color == Grey)
    && (forall v {:trigger D[v]} :: v in D && v != source && v !in V ==>
          D[v].color != Grey && (D[v].color == White <==> D[v].distance.Infinite?))
  }

  ghost predicate Queued(source: nat, D: DMap, Q: seq<Entry>) {
    Distinct(Q) && GreyNodes(source, D, View(Q))
  }

  /** The state of the search once the source was scanned. */
  ghost predicate Loose(nodes: set<nat>, source: nat, D: DMap, Q: seq<Entry>, stamp: Dates, now: nat) {
    && D.Keys == nodes + {source} && Stamped(D, stamp, now)
    && Trailed(source, D, stamp) && Queued(source, D, Q)
  }

  lemma FrontIsViewed(Q: seq<Entry>)
    requires |Q| > 0 && Distinct(Q)
    ensures Q[0].nid in View(Q) && View(Q)[Q[0].nid] == Q[0].distance
    ensures View(Q[1..]) == View(Q) - {Q[0].nid}
  {
  }

  /** A closer way to a node than any before. */
  lemma TrailStep(source: nat, D: DMap, stamp: Dates, now: nat, v: nat, u: nat, d: real, color: Color)
    requires Stamped(D, stamp, now) && Trailed(source, D, stamp) && v in D && v != source && u in D && u != source
    requires u != v
    requires D[u].distance.Finite? && D[u].distance.d <= d && Less(d, D[v].distance)
    ensures var D', stamp' := D[v := DNode(Finite(d), Some(u), color)], stamp[v := now];
      Stamped(D', stamp', now + 1) && Trailed(source, D', stamp')
  {
    var D', stamp' := D[v := DNode(Finite(d), Some(u), color)], stamp[v := now];
    forall w | w in D' ensures Follows(source, D', stamp', w) {
      assert Follows(source, D, stamp, w);
    }
  }

  lemma SourceStep(source: nat, D: DMap, stamp: Dates, u: nat, d: real)
    requires Trailed(source, D, stamp) && u in D && D[u].distance.Finite?
    ensures Trailed(source, D[source := DNode(Finite(d), Some(u), D[source].color)], stamp)
  {
    var D' := D[source := DNode(Finite(d), Some(u), D[source].color)];
    forall w | w in D' ensures Follows(source, D', stamp, w) {
      assert Follows(source, D, stamp, w);
    }
  }

  /** Colours do not matter to it. */
  lemma BlackenTrail(source: nat, D: DMap, stamp: Dates, u: nat)
    requires Trailed(source, D, stamp) && u in D
    ensures Trailed(source, Blacken(D, u), stamp)
  {
    var D' := Blacken(D, u);
    forall w | w in D' ensures Follows(source, D', stamp, w) {
      assert Follows(source, D, stamp, w);
    }
  }

  /** What a relaxation makes of the source's own entry. */
  lemma SourceOutcome(D: DMap, Q: seq<Entry>, source: nat, e: Edge, cost: real, sort: Sorting) returns (d: real)
    requires |Q| > 0 && Q[0].nid in D && source in D && e.snk == source && D[Q[0].nid].distance.Finite?
    requires D[source].color == Black && Q[0].nid != source
    ensures var r := Relax(D, Q, source, e, cost, sort);
      r.1 == Q && (r.0 == D || r.0 == D[source := DNode(Finite(d), Some(Q[0].nid), Black)])
  {
    d := cost + D[Q[0].nid].distance.d;
    var D1 := CloseLoop(D, Q[0], source, e, cost);
    assert D1 == D || D1 == D[source := DNode(Finite(d), Some(Q[0].nid), Black)];
  }

  lemma LooseIntoSource(nodes: set<nat>, D: DMap, Q: seq<Entry>, source: nat, e: Edge, cost: real, sort: Sorting,
                        stamp: Dates, now: nat)
    requires Loose(nodes, source, D, Q, stamp, now) && |Q| > 0 && e.snk == source
    ensures Q[0].nid in D && D[Q[0].nid].distance.Finite?
    ensures var r := Relax(D, Q, source, e, cost, sort); r.1 == Q && Loose(nodes, source, r.0, Q, stamp, now)
  {
    FrontIsViewed(Q);
    var u := Q[0].nid;
    var d := SourceOutcome(D, Q, source, e, cost, sort);
    SourceStep(source, D, stamp, u, d);
  }

  /** What a relaxation makes of another node. */
  lemma OntoOutcome(D: DMap, Q: seq<Entry>, source: nat, e: Edge, cost: real, sort: Sorting, d: real)
    requires |Q| > 0 && Q[0].nid in D && source in D && e.snk in D && e.snk != source && D[Q[0].nid].distance.Finite?
    requires Less(cost + Q[0].distance, D[e.snk].distance) && d == cost + D[Q[0].nid].distance.d
    ensures var r := Relax(D, Q, source, e, cost, sort);
      && r.0 == D[e.snk := DNode(Finite(d), Some(Q[0].nid), Stirred(D[e.snk].color))]
      && r.1 == match D[e.snk].color
                case White => Q + [Entry(e.snk, d)]
                case Grey => sort(Decrease(Q, e.snk, d))
                case Black => Q
  {
  }

  /** A white node becomes grey. */
  function Stirred(color: Color): Color {
    if color == White then Grey else color
  }

  lemma WaitingStep(source: nat, D: DMap, V: map<nat, real>, v: nat, u: nat, d: real)
    requires GreyNodes(source, D, V) && v in D && v != source
    ensures GreyNodes(source, D[v := DNode(Finite(d), Some(u), Stirred(D[v].color))],
                    if D[v].color == Black then V else V[v := d])
  {
  }

  lemma QueueStep(source: nat, D: DMap, Q: seq<Entry>, v: nat, u: nat, d: real, sort: Sorting)
    requires Queued(source, D, Q) && v in D && v != source && Sorts(sort)
    ensures var D' := D[v := DNode(Finite(d), Some(u), Stirred(D[v].color))];
      var Q' := match D[v].color case White => Q + [Entry(v, d)] case Grey => sort(Decrease(Q, v, d)) case Black => Q;
      Queued(source, D', Q')
  {
    WaitingStep(source, D, View(Q), v, u, d);
    match D[v].color
    case White =>
      assert v !in View(Q);
      AppendFacts(Q, Entry(v, d));
    case Grey =>
      assert v in View(Q);
      DecreaseFacts(Q, v, d);
      SortingFacts(sort, Decrease(Q, v, d));
    case Black =>
  }

  lemma LooseOnto(nodes: set<nat>, D: DMap, Q: seq<Entry>, source: nat, e: Edge, cost: real, sort: Sorting,
                  stamp: Dates, now: nat)
    requires Loose(nodes, source, D, Q, stamp, now) && |Q| > 0 && e.snk != source && e.snk in D && cost >= 0.0
    requires Sorts(sort)
    requires Less(cost + Q[0].distance, D[e.snk].distance)
    ensures Q[0].nid in D && D[Q[0].nid].distance.Finite?
    ensures var r := Relax(D, Q, source, e, cost, sort); Loose(nodes, source, r.0, r.1, stamp[e.snk := now], now + 1)
  {
    FrontIsViewed(Q);
    var u, v := Q[0].nid, e.snk;
    var d := cost + D[u].distance.d;
    OntoOutcome(D, Q, source, e, cost, sort, d);
    TrailStep(source, D, stamp, now, v, u, d, Stirred(D[v].color));
    QueueStep(source, D, Q, v, u, d, sort);
  }

  /** Relaxing any edge, whatever the front is by now. */
  lemma LooseRelax(nodes: set<nat>, D: DMap, Q: seq<Entry>, source: nat, e: Edge, cost: real, sort: Sorting,
                   stamp: Dates, now: nat)
    returns (stamp': Dates, now': nat)
    requires Loose(nodes, source, D, Q, stamp, now) && |Q| > 0 && e.snk in D && cost >= 0.0 && Sorts(sort)
    ensures Q[0].nid in D && D[Q[0].nid].distance.Finite?
    ensures var r := Relax(D, Q, source, e, cost, sort); Loose(nodes, source, r.0, r.1, stamp', now')
  {
    stamp', now' := stamp, now;
    FrontIsViewed(Q);
    if e.snk == source {
      LooseIntoSource(nodes, D, Q, source, e, cost, sort, stamp, now);
    } else if Less(cost + Q[0].distance, D[e.snk].distance) {
      LooseOnto(nodes, D, Q, source, e, cost, sort, stamp, now);
      stamp', now' := stamp[e.snk := now], now + 1;
    }
  }

  /** A node is put into the deque once, when it stops being white. */
  lemma RelaxWhites(D: DMap, Q: seq<Entry>, source: nat, e: Edge, cost: real, sort: Sorting)
    requires |Q| > 0 && Q[0].nid in D && source in D && e.snk in D && D[Q[0].nid].distance.Finite? && Sorts(sort)
    ensures var r := Relax(D, Q, source, e, cost, sort);
      && r.0.Keys == D.Keys && |r.1| > 0
      && (Whites(r.0) < Whites(D) || (Whites(r.0) == Whites(D) && |r.1| == |Q|))
  {
    var D1 := CloseLoop(D, Q[0], source, e, cost);
    assert Whites(D1) == Whites(D);
    SortedSize(sort, Decrease(Q, e.snk, cost + D1[Q[0].nid].distance.d));
    var D2 := Improve(D1, Q, e, cost, sort).0;
    if e.snk in Whites(D) && e.snk !in Whites(D2) {
      assert Whites(D2) == Whites(D) - {e.snk};
    } else {
      assert Whites(D2) == Whites(D);
    }
  }

  lemma LooseRetire(nodes: set<nat>, source: nat, D: DMap, Q: seq<Entry>, stamp: Dates, now: nat)
    requires Loose(nodes, source, D, Q, stamp, now) && |Q| > 0
    ensures Q[0].nid in D && Loose(nodes, source, Blacken(D, Q[0].nid), Q[1..], stamp, now)
  {
    FrontIsViewed(Q);
    BlackenTrail(source, D, stamp, Q[0].nid);
  }

  /** Sorting before a turn. */
  lemma LooseSort(nodes: set<nat>, source: nat, D: DMap, Q: seq<Entry>, sort: Sorting, stamp: Dates, now: nat)
    requires Loose(nodes, source, D, Q, stamp, now) && Sorts(sort)
    ensures Loose(nodes, source, D, sort(Q), stamp, now) && |sort(Q)| == |Q|
  {
    SortingFacts(sort, Q);
  }

  /** After the source was scanned. */
  lemma LooseStarts(g: Net, E: set<Edge>, source: nat, c: Costs, late: set<Edge>, D: DMap, Q: seq<Entry>, when: Dates,
                    tick: nat)
    returns (stamp: Dates)
    requires E <= c.Keys && Rested(g, E, source, c, late, D, Q, when, source, tick)
    ensures Loose(g.nodes, source, D, Q, stamp, 1)
  {
    stamp := map v | v in D :: 0;
    assert when.Keys == {source};
    forall v | v in D ensures Follows(source, D, stamp, v) {
    }
  }

  // ----- the search -----

  /** The strict invariant where it is due: while the source is scanned, and for good when the order
      of ties does not matter. */
  ghost predicate Firm(E: set<Edge>, c: Costs, source: nat, sort: Sorting, front: nat)
    requires E <= c.Keys
  {
    front == source || Orderly(E, c, source, sort)
  }

  /** In the middle of a scan of `front`. */
  ghost predicate Scanning(graph: Net, succs: Links, cost: Costs, source: nat, sort: Sorting, D: DMap, Q: seq<Entry>,
                           late: set<Edge>, when: Dates, front: nat, todo: set<Edge>, stamp: Dates, now: nat)
    requires Searchable(graph, succs, cost)
  {
    && |Q| > 0
    && (Firm(Visible(graph, succs), cost, source, sort, front) ==>
          Fronted(graph, Visible(graph, succs), source, cost, late, D, Q, when, front, todo * Visible(graph, succs)))
    && (front != source ==> Loose(graph.nodes, source, D, Q, stamp, now))
  }

  lemma CanRun(graph: Net, succs: Links, cost: Costs, source: nat, sort: Sorting, D: DMap, Q: seq<Entry>,
               late: set<Edge>, when: Dates, front: nat, todo: set<Edge>, stamp: Dates, now: nat)
    requires Searchable(graph, succs, cost)
    requires Scanning(graph, succs, cost, source, sort, D, Q, late, when, front, todo, stamp, now)
    ensures D.Keys == graph.nodes + {source} && Q[0].nid in D && D[Q[0].nid].distance.Finite?
  {
    if front != source {
      FrontIsViewed(Q);
    }
  }

  /** One neighbour: skipped when its edge is not the graph's, relaxed otherwise. */
  method VisitNeighbor(graph: Net, succs: Links, cost: Costs, source: nat, sort: Sorting, D0: DMap, Q0: seq<Entry>,
                       e: Edge,
                       ghost late0: set<Edge>, ghost when: Dates, ghost front: nat, ghost todo: set<Edge>,
                       ghost stamp0: Dates, ghost now0: nat)
    returns (D: DMap, Q: seq<Entry>, ghost late: set<Edge>, ghost stamp: Dates, ghost now: nat)
    requires Searchable(graph, succs, cost) && Sorts(sort) && front in graph.nodes && e in todo && todo <= succs[front]
    requires Scanning(graph, succs, cost, source, sort, D0, Q0, late0, when, front, todo, stamp0, now0)
    ensures Scanning(graph, succs, cost, source, sort, D, Q, late, when, front, todo - {e}, stamp, now)
    ensures Firm(Visible(graph, succs), cost, source, sort, front) ==> Q[0] == Q0[0]
    ensures Whites(D) < Whites(D0) || (Whites(D) == Whites(D0) && |Q| == |Q0|)
  {
    ghost var E := Visible(graph, succs);
    D, Q, late, stamp, now := D0, Q0, late0, stamp0, now0;
    if e in graph.edges {
      CanRun(graph, succs, cost, source, sort, D0, Q0, late0, when, front, todo, stamp0, now0);
      assert todo * E - {e} == (todo - {e}) * E;
      if Firm(E, cost, source, sort, front) {
        ghost var D', Q', late' := RelaxKeeps(graph, E, source, cost, late0, D0, Q0, when, front, todo * E, e, sort);
        late := late';
      }
      if front != source {
        stamp, now := LooseRelax(graph.nodes, D0, Q0, source, e, cost[e], sort, stamp0, now0);
      }
      RelaxWhites(D0, Q0, source, e, cost[e], sort);
      var r := Relax(D0, Q0, source, e, cost[e], sort);
      D, Q := r.0, r.1;
    } else {
      assert todo * E == (todo - {e}) * E;
    }
  }

  /** The loop over the successors of the front, in any order. */
  method ScanNeighbors(graph: Net, succs: Links, cost: Costs, source: nat, sort: Sorting, D0: DMap, Q0: seq<Entry>,
                       ghost late0: set<Edge>, ghost when: Dates, ghost front: nat, ghost stamp0: Dates,
                       ghost now0: nat)
    returns (D: DMap, Q: seq<Entry>, ghost late: set<Edge>, ghost stamp: Dates, ghost now: nat)
    requires Searchable(graph, succs, cost) && Sorts(sort) && front in graph.nodes && |Q0| > 0 && Q0[0].nid == front
    requires Scanning(graph, succs, cost, source, sort, D0, Q0, late0, when, front, succs[front], stamp0, now0)
    ensures Scanning(graph, succs, cost, source, sort, D, Q, late, when, front, {}, stamp, now)
    ensures Firm(Visible(graph, succs), cost, source, sort, front) ==> Q[0] == Q0[0]
    ensures Whites(D) < Whites(D0) || (Whites(D) == Whites(D0) && |Q| == |Q0|)
  {
    D, Q, late, stamp, now := D0, Q0, late0, stamp0, now0;
    var todo := succs[Q[0].nid];
    while todo != {}
      invariant todo <= succs[front]
      invariant Scanning(graph, succs, cost, source, sort, D, Q, late, when, front, todo, stamp, now)
      invariant Firm(Visible(graph, succs), cost, source, sort, front) ==> Q[0] == Q0[0]
      invariant Whites(D) < Whites(D0) || (Whites(D) == Whites(D0) && |Q| == |Q0|)
      decreases todo
    {
      var e :| e in todo;
      D, Q, late, stamp, now := VisitNeighbor(graph, succs, cost, source, sort, D, Q, e, late, when, front, todo,
                                              stamp, now);
      todo := todo - {e};
    }
  }

  /** The state at the head of the outer loop, whatever the order of ties. */
  ghost predicate AtHead(graph: Net, E: set<Edge>, source: nat, c: Costs, sort: Sorting, late: set<Edge>,
                         D: DMap, Q: seq<Entry>, when: Dates, front: nat, tick: nat, stamp: Dates, now: nat)
    requires E <= c.Keys
  {
    && (tick == 0 || Orderly(E, c, source, sort) ==> Ready(graph, E, source, c, late, D, Q, when, front, tick))
    && (tick > 0 ==> Loose(graph.nodes, source, D, Q, stamp, now))
  }

  /** The front, whatever it is by now, is painted black and taken off. */
  lemma TurnEnds(graph: Net, succs: Links, cost: Costs, source: nat, sort: Sorting, D: DMap, Q: seq<Entry>,
                 late: set<Edge>, when: Dates, front: nat, tick: nat, stamp0: Dates, now0: nat)
    returns (stamp: Dates, now: nat)
    requires Searchable(graph, succs, cost) && tick > 0 && when.Keys <= graph.nodes + {source}
    requires Scanning(graph, succs, cost, source, sort, D, Q, late, when, front, {}, stamp0, now0)
    requires Firm(Visible(graph, succs), cost, source, sort, front) ==> Before(when, tick) && Q[0].nid == front
    ensures Q[0].nid in D
    ensures AtHead(graph, Visible(graph, succs), source, cost, sort, late, Blacken(D, Q[0].nid), Q[1..], when, front,
                   tick, stamp, now)
  {
    ghost var E := Visible(graph, succs);
    stamp, now := stamp0, now0;
    assert {} * E == {};
    if Firm(E, cost, source, sort, front) {
      Retire(graph, E, source, cost, late, D, Q, when, front, tick);
    }
    if front != source {
      LooseRetire(graph.nodes, source, D, Q, stamp, now);
    } else {
      stamp := LooseStarts(graph, E, source, cost, late, Blacken(D, source), Q[1..], when, tick);
      now := 1;
    }
  }

  lemma BlackenWhites(D: DMap, u: nat)
    requires u in D
    ensures Whites(Blacken(D, u)) == Whites(D) - {u}
  {
  }

  /** The scan of the front, if it is a node of the graph. */
  method ScanHead(graph: Net, succs: Links, cost: Costs, source: nat, sort: Sorting, D0: DMap, Q0: seq<Entry>,
                   ghost late0: set<Edge>, ghost when: Dates, ghost front: nat, ghost stamp0: Dates, ghost now0: nat)
    returns (D: DMap, Q: seq<Entry>, ghost late: set<Edge>, ghost stamp: Dates, ghost now: nat)
    requires Searchable(graph, succs, cost) && Sorts(sort) && |Q0| > 0 && Q0[0].nid == front
    requires Scanning(graph, succs, cost, source, sort, D0, Q0, late0, when, front,
                      OutEdges(Visible(graph, succs), front), stamp0, now0)
    ensures Scanning(graph, succs, cost, source, sort, D, Q, late, when, front, {}, stamp, now)
    ensures Firm(Visible(graph, succs), cost, source, sort, front) ==> Q[0].nid == front
    ensures Whites(D) < Whites(D0) || (Whites(D) == Whites(D0) && |Q| == |Q0|)
  {
    ghost var E := Visible(graph, succs);
    if Q0[0].nid in graph.nodes {
      assert OutEdges(E, front) * E == succs[front] * E;
      D, Q, late, stamp, now := ScanNeighbors(graph, succs, cost, source, sort, D0, Q0, late0, when, front, stamp0,
                                              now0);
    } else {
      assert OutEdges(E, front) * E == {} * E;
      D, Q, late, stamp, now := D0, Q0, late0, stamp0, now0;
    }
  }

  /** One turn of the outer loop: scan the front, paint what is then the front black, take it off. */
  method TakeFront(graph: Net, succs: Links, cost: Costs, source: nat, sort: Sorting, D0: DMap, Q0: seq<Entry>,
                   ghost late0: set<Edge>, ghost when: Dates, ghost front: nat, ghost tick: nat, ghost stamp0: Dates,
                   ghost now0: nat)
    returns (D: DMap, Q: seq<Entry>, ghost late: set<Edge>, ghost stamp: Dates, ghost now: nat)
    requires Searchable(graph, succs, cost) && Sorts(sort) && tick > 0 && |Q0| > 0 && Q0[0].nid == front
    requires when.Keys <= graph.nodes + {source}
    requires (Firm(Visible(graph, succs), cost, source, sort, front) ==> Before(when, tick))
    requires Scanning(graph, succs, cost, source, sort, D0, Q0, late0, when, front,
                      OutEdges(Visible(graph, succs), front), stamp0, now0)
    ensures AtHead(graph, Visible(graph, succs), source, cost, sort, late, D, Q, when, front, tick, stamp, now)
    ensures Whites(D) < Whites(D0) || (Whites(D) == Whites(D0) && |Q| < |Q0|)
  {
    D, Q, late, stamp, now := ScanHead(graph, succs, cost, source, sort, D0, Q0, late0, when, front, stamp0, now0);
    stamp, now := TurnEnds(graph, succs, cost, source, sort, D, Q, late, when, front, tick, stamp, now);
    BlackenWhites(D, Q[0].nid);
    D := Blacken(D, Q[0].nid);
    Q := Q[1..];
  }

  /** The nodes earlier than this one. */
  ghost function EarlierThan(D: DMap, stamp: Dates, v: nat): set<nat> {
    set u | u in D && Earlier(D, stamp, u, v)
  }

  lemma FewerEarlier(D: DMap, stamp: Dates, u: nat, v: nat)
    requires Earlier(D, stamp, u, v)
    ensures EarlierThan(D, stamp, u) + {u} < EarlierThan(D, stamp, v) + {v}
  {
    assert v !in EarlierThan(D, stamp, u) + {u};
  }

  /** The walk back over the predecessors. It ends whatever the order of ties was. */
  method WalkBack(D: DMap, source: nat, sink: nat, ghost stamp: Dates, ghost firm: bool, ghost E: set<Edge>,
                  ghost k: Costs,
                  ghost when: Dates, ghost front: nat)
    returns (kernel: set<nat>, ghost path: seq<nat>)
    requires Trailed(source, D, stamp) && sink in D && D[sink].predecessor.Some?
    requires firm ==> E <= k.Keys && Dated(D, source, when, front) && Preds(E, source, k, D, when, front, {})
    ensures kernel != {}
    ensures firm ==> Walk(E, source, sink, path) && |path| >= 2 && kernel == Stem(path) && ReachPlus(E, source, sink)
    ensures firm ==> D[sink].distance == Finite(WalkCost(k, path))
    ensures D[sink].predecessor == Some(source) ==> kernel == {source}
  {
    assert Follows(source, D, stamp, sink);
    var prev := D[sink].predecessor.value;
    kernel := {prev};
    path := [prev, sink];
    StemCons(prev, [sink]);
    assert [prev] + [sink] == path && path[..1] == [prev] && Stem([sink]) == {};
    while prev != source
      invariant prev in kernel && prev in D && D[prev].distance.Finite?
      invariant firm ==> prev in when && Walk(E, prev, sink, path) && |path| >= 2 && kernel == Stem(path)
      invariant firm ==> D[sink].distance.Finite? && WalkCost(k, path) == D[sink].distance.d - Val(D, source, prev)
      invariant D[sink].predecessor == Some(source) ==> prev == source && kernel == {source}
      decreases if prev == source then {} else EarlierThan(D, stamp, prev) + {prev}
    {
      assert Follows(source, D, stamp, prev);
      ghost var was := prev;
      if firm {
        assert Edge(D[prev].predecessor.value, prev) in E;
      }
      prev := D[prev].predecessor.value;
      kernel := kernel + {prev};
      if prev != source {
        FewerEarlier(D, stamp, prev, was);
      }
      if firm {
        CostCons(k, prev, path);
        StemCons(prev, path);
        WalkCons(E, prev, path);
      }
      path := [prev] + path;
    }
    if firm {
      WalkIsPlus(E, source, sink, path);
    }
  }

  /** What the finished search says about the sink. */
  lemma Verdict(g: Net, E: set<Edge>, source: nat, c: Costs, late: set<Edge>, D: DMap, when: Dates, front: nat,
                tick: nat, sink: nat)
    requires E <= c.Keys && NonNegative(c) && Rested(g, E, source, c, late, D, [], when, front, tick)
    ensures Dated(D, source, when, front) && LateEdges(E, source, late) && NonNegative(Inflated(c, source, late))
    ensures Preds(E, source, Inflated(c, source, late), D, when, front, {})
    ensures forall v :: v in D && v != source && D[v].distance.Finite? ==> D[v].predecessor.Some?
    ensures forall q :: Walk(E, source, sink, q) && |q| >= 2 ==>
              && sink in D && D[sink].predecessor.Some? && D[sink].distance.Finite?
              && D[sink].distance.d <= WalkCost(Inflated(c, source, late), q)
    ensures ReachPlus(E, source, sink) ==> sink in D && D[sink].predecessor.Some?
    ensures Edge(source, source) in E ==>
              && D[source].distance.Finite? && D[source].distance.d <= c[Edge(source, source)]
              && (D[source].distance.d == c[Edge(source, source)] ==> D[source].predecessor == Some(source))
  {
    assert NonNegative(Inflated(c, source, late));
    assert Complete(E, source, Inflated(c, source, late), D, when, front);
    BoundedAll(g, E, source, Inflated(c, source, late), D, when, front, sink);
  }

  lemma WalkCons(E: set<Edge>, a: nat, p: seq<nat>)
    requires IsWalk(E, p) && Edge(a, p[0]) in E
    ensures IsWalk(E, [a] + p)
  {
    var r := [a] + p;
    forall i | 0 <= i < |r| - 1 ensures Edge(r[i], r[i + 1]) in E {
      if i > 0 {
        assert r[i] == p[i - 1] && r[i + 1] == p[i - 1 + 1];
      }
    }
  }

  lemma StemCons(a: nat, p: seq<nat>)
    requires |p| > 0
    ensures Stem([a] + p) == {a} + Stem(p)
  {
    var r := [a] + p;
    forall x ensures x in Stem(r) <==> x == a || x in Stem(p) {
      if x in Stem(p) {
        var i :| 0 <= i < |p| - 1 && p[i] == x;
        assert r[i + 1] == x;
      }
      if x == a {
        assert r[0] == x;
      }
      if x in Stem(r) {
        var i :| 0 <= i < |r| - 1 && r[i] == x;
        assert i > 0 ==> p[i - 1] == x;
      }
    }
  }

  /** Every walk to the sink is bounded below by its recorded distance, and a sink that can be
      reached has a predecessor. */
  lemma BoundedAll(g: Net, E: set<Edge>, source: nat, k: Costs, D: DMap, when: Dates, front: nat, sink: nat)
    requires E <= k.Keys && NonNegative(k) && Complete(E, source, k, D, when, front)
    ensures forall q :: Walk(E, source, sink, q) && |q| >= 2 ==>
              sink in D && D[sink].predecessor.Some? && D[sink].distance.Finite? && D[sink].distance.d <= WalkCost(k, q)
    ensures ReachPlus(E, source, sink) ==> sink in D && D[sink].predecessor.Some?
  {
    forall q | Walk(E, source, sink, q) && |q| >= 2
      ensures sink in D && D[sink].predecessor.Some? && D[sink].distance.Finite? && D[sink].distance.d <= WalkCost(k, q)
    {
      Bounded(E, source, k, D, when, front, q);
    }
    if ReachPlus(E, source, sink) {
      var q := PlusWalk(E, source, sink);
    }
  }

  lemma PlusWalk(E: set<Edge>, a: nat, b: nat) returns (q: seq<nat>)
    requires ReachPlus(E, a, b)
    ensures Walk(E, a, b, q) && |q| >= 2
  {
    var e :| e in E && e.src == a && Reach(E, e.snk, b);
    var p :| Walk(E, e.snk, b, p);
    WalkCons(E, a, p);
    q := [a] + p;
  }

  /** What the search promises when the order of ties does not matter: the nodes of a cheapest non-empty
      path from source to sink, final endpoint excluded. */
  ghost predicate Answers(E: set<Edge>, c: Costs, source: nat, sink: nat, kernel: set<nat>, path: seq<nat>,
                          late: set<Edge>)
    requires E <= c.Keys
  {
    && LateEdges(E, source, late)
    && (kernel != {} ==> Cheapest(E, Inflated(c, source, late), source, sink, path) && kernel == Stem(path))
    && (sink == source && SelfIsCheapest(E, Inflated(c, source, late), source) ==> kernel == {source})
  }

  /** The minimum path, read off the finished map. */
  method RecoverPath(graph: Net, succs: Links, cost: Costs, source: nat, sink: nat, ghost sort: Sorting, D: DMap,
                     ghost late: set<Edge>, ghost when: Dates, ghost front: nat, ghost tick: nat, ghost stamp: Dates,
                     ghost now: nat)
    returns (kernel: set<nat>, ghost path: seq<nat>)
    requires Searchable(graph, succs, cost) && tick > 0
    requires AtHead(graph, Visible(graph, succs), source, cost, sort, late, D, [], when, front, tick, stamp, now)
    ensures Orderly(Visible(graph, succs), cost, source, sort) ==>
      (kernel != {} <==> ReachPlus(Visible(graph, succs), source, sink))
    ensures Orderly(Visible(graph, succs), cost, source, sort) ==>
      Answers(Visible(graph, succs), cost, source, sink, kernel, path, late)
  {
    ghost var E := Visible(graph, succs);
    ghost var firm := Orderly(E, cost, source, sort);
    ghost var k := cost;
    if firm {
      Verdict(graph, E, source, cost, late, D, when, front, tick, sink);
      k := Inflated(cost, source, late);
    }
    if sink !in D || D[sink].predecessor.None? {
      return {}, [];
    }
    kernel, path := WalkBack(D, source, sink, stamp, firm, E, k, when, front);
  }

  /** The deque is sorted and its front is next. */
  lemma TurnStarts(graph: Net, succs: Links, cost: Costs, source: nat, sort: Sorting, D: DMap, Q: seq<Entry>,
                   late: set<Edge>, when: Dates, front: nat, tick: nat, stamp: Dates, now: nat)
    requires Searchable(graph, succs, cost) && Sorts(sort) && |Q| > 0 && when.Keys <= graph.nodes + {source}
    requires AtHead(graph, Visible(graph, succs), source, cost, sort, late, D, Q, when, front, tick, stamp, now)
    ensures |sort(Q)| == |Q|
    ensures var u := sort(Q)[0].nid;
      && when[u := tick].Keys <= graph.nodes + {source}
      && (Firm(Visible(graph, succs), cost, source, sort, u) ==> Before(when[u := tick], tick + 1))
      && Scanning(graph, succs, cost, source, sort, D, sort(Q), late, when[u := tick], u, OutEdges(Visible(graph,
                  succs), u), stamp, now)
  {
    ghost var E := Visible(graph, succs);
    SortedSize(sort, Q);
    if tick > 0 {
      LooseSort(graph.nodes, source, D, Q, sort, stamp, now);
      FrontIsViewed(sort(Q));
    }
    var u := sort(Q)[0].nid;
    assert OutEdges(E, u) * E == OutEdges(E, u);
    if tick == 0 || Orderly(E, cost, source, sort) {
      NextFront(graph, E, source, cost, late, D, Q, when, front, tick, sort);
    }
  }

  /** Dijkstras, over any way of sorting the deque. It ends for all of them, and when the order of ties
      does not matter its result is right: at the costs it minimises, which are the given ones but for
      the edges in `late`, and for cycles at the given costs unless the source's self-edge is in the
      way. */
  method Dijkstras(graph: Net, succs: Links, cost: Costs, source: nat, sink: nat, sort: Sorting)
    returns (kernel: set<nat>, ghost path: seq<nat>, ghost late: set<Edge>)
    requires Searchable(graph, succs, cost) && Sorts(sort)
    ensures Orderly(Visible(graph, succs), cost, source, sort) ==>
      (kernel != {} <==> ReachPlus(Visible(graph, succs), source, sink))
    ensures Orderly(Visible(graph, succs), cost, source, sort) ==>
      Answers(Visible(graph, succs), cost, source, sink, kernel, path, late)
  {
    ghost var E := Visible(graph, succs);
    late := {};
    ghost var when: Dates, front, tick, stamp: Dates, now := map[], source, 0, map[], 0;
    var D: DMap := Initial(graph.nodes, source);
    var Q := [Entry(source, 0.0)];
    while Q != []
      invariant AtHead(graph, E, source, cost, sort, late, D, Q, when, front, tick, stamp, now)
      invariant when.Keys <= graph.nodes + {source} && (tick == 0 ==> Q != [])
      decreases Whites(D), |Q|
    {
      TurnStarts(graph, succs, cost, source, sort, D, Q, late, when, front, tick, stamp, now);
      Q := sort(Q);
      front := Q[0].nid;
      when, tick := when[front := tick], tick + 1;
      D, Q, late, stamp, now := TakeFront(graph, succs, cost, source, sort, D, Q, late, when, front, tick, stamp, now);
    }
    kernel, path := RecoverPath(graph, succs, cost, source, sink, sort, D, late, when, front, tick, stamp, now);
  }

  lemma WalkIsPlus(E: set<Edge>, a: nat, b: nat, p: seq<nat>)
    requires Walk(E, a, b, p) && |p| >= 2
    ensures ReachPlus(E, a, b)
  {
    assert Walk(E, p[1], b, p[1..]);
    assert Edge(p[0], p[1]) in E;
  }

  // ----- what the self-edge of the source does -----

  lemma {:induction false} InflatedIsDearer(E: set<Edge>, c: Costs, source: nat, late: set<Edge>, p: seq<nat>)
    requires E <= c.Keys && NonNegative(c) && LateEdges(E, source, late) && IsWalk(E, p)
    ensures WalkCost(c, p) <= WalkCost(Inflated(c, source, late), p)
  {
    if |p| >= 2 {
      var q := p[..|p| - 1];
      assert forall i :: 0 <= i < |q| - 1 ==> Edge(q[i], q[i + 1]) == Edge(p[i], p[i + 1]);
      InflatedIsDearer(E, c, source, late, q);
      assert Edge(p[|p| - 2], p[|p| - 2 + 1]) in E;
    }
  }

  lemma {:induction false} FirstEdgeCosts(E: set<Edge>, k: Costs, p: seq<nat>)
    requires E <= k.Keys && NonNegative(k) && IsWalk(E, p) && |p| >= 2
    ensures Edge(p[0], p[1]) in E && k[Edge(p[0], p[1])] <= WalkCost(k, p)
  {
    var q := p[..|p| - 1];
    assert forall i :: 0 <= i < |q| - 1 ==> Edge(q[i], q[i + 1]) == Edge(p[i], p[i + 1]);
    assert Edge(p[|p| - 2], p[|p| - 2 + 1]) in E;
    if |p| > 2 {
      FirstEdgeCosts(E, k, q);
    } else {
      assert WalkCost(k, q) == 0.0;
    }
  }

  /** The self-edge as a walk. */
  lemma SelfWalk(E: set<Edge>, k: Costs, source: nat)
    requires E <= k.Keys && Edge(source, source) in E
    ensures Walk(E, source, source, [source, source])
    ensures WalkCost(k, [source, source]) == k[Edge(source, source)]
  {
    CostSnoc(E, k, [source], source);
    assert [source] + [source] == [source, source];
  }

  function OtherOuts(E: set<Edge>, source: nat): set<Edge> {
    set e | e in E && e.src == source && e.snk != source
  }

  /** When all other edges of the source are late, the self-edge looks like a cheapest cycle. */
  lemma SelfLooksCheapest(E: set<Edge>, c: Costs, source: nat)
    requires E <= c.Keys && NonNegative(c) && Edge(source, source) in E
    ensures LateEdges(E, source, OtherOuts(E, source))
    ensures Cheapest(E, Inflated(c, source, OtherOuts(E, source)), source, source, [source, source])
  {
    var late := OtherOuts(E, source);
    var k := Inflated(c, source, late);
    SelfWalk(E, k, source);
    forall q | Walk(E, source, source, q) && |q| >= 2 ensures WalkCost(k, [source, source]) <= WalkCost(k, q) {
      FirstEdgeCosts(E, k, q);
    }
  }

  lemma SelfStaysCheapest(E: set<Edge>, c: Costs, source: nat, late: set<Edge>, p: seq<nat>)
    requires E <= c.Keys && NonNegative(c) && SelfIsCheapest(E, c, source) && LateEdges(E, source, late)
    requires Cheapest(E, Inflated(c, source, late), source, source, p)
    ensures Cheapest(E, c, source, source, p)
  {
    InflatedIsDearer(E, c, source, late, p);
    SelfWalk(E, Inflated(c, source, late), source);
  }

  /** With a self-edge on the source, the cycles found are cheapest at the given costs, whatever the
      order of the neighbours, exactly when no cycle through the source is cheaper than the self-edge. */
  lemma SelfEdgeMatters(E: set<Edge>, c: Costs, source: nat)
    requires E <= c.Keys && NonNegative(c) && Edge(source, source) in E
    ensures (forall late, p ::
          LateEdges(E, source, late) && Cheapest(E, Inflated(c, source, late), source, source, p) ==>
              Cheapest(E, c, source, source, p))
       <==> SelfIsCheapest(E, c, source)
  {
    if SelfIsCheapest(E, c, source) {
      forall late, p | LateEdges(E, source, late) && Cheapest(E, Inflated(c, source, late), source, source, p)
        ensures Cheapest(E, c, source, source, p)
      {
        SelfStaysCheapest(E, c, source, late, p);
      }
    } else {
      SelfLooksCheapest(E, c, source);
      SelfWalk(E, c, source);
      assert !Cheapest(E, c, source, source, [source, source]);
    }
  }

  /** So the answer to a search for a cycle is right at the given costs when there is no self-edge, or
      it is a cheapest cycle. */
  lemma CycleAnswer(E: set<Edge>, c: Costs, source: nat, kernel: set<nat>, path: seq<nat>, late: set<Edge>)
    requires E <= c.Keys && NonNegative(c) && Answers(E, c, source, source, kernel, path, late) && kernel != {}
    requires Edge(source, source) !in E || SelfIsCheapest(E, c, source)
    ensures Cheapest(E, c, source, source, path)
  {
    if Edge(source, source) !in E {
      assert late == {};
      NothingInflated(E, c, source, late);
    } else {
      SelfStaysCheapest(E, c, source, late, path);
    }
  }
}
