/** Which calls are inlined, and why the schedule is right for every call graph: the part of
    VirtualizeSharedFunctions that comes before any inlining. */
module InlinePlan {
  import opened Graphs
  import opened Sets
  import opened CycleSearch
  import opened Recursion
  import opened Embedding
  import opened InlineSchedule
  import ControlState

  /** How many call sites stand behind each call edge. */
  type CallSites = map<Edge, nat>

  /** The calls a function is entered by: those into its recursion from outside, or else those by
      other functions. */
  ghost predicate Enters(E: set<Edge>, n: nat, e: Edge) {
    e in E && if Indirect(E, n) then InRecursion(E, n, e.snk) && !InRecursion(E, n, e.src)
              else e.snk == n && e.src != n
  }

  /** getDirectRecursionEntrances */
  method DirectRecursionEntrances(g: Calls, n: nat) returns (entrances: set<Edge>)
    requires IsCallGraph(g) && n in g.net.nodes
    ensures forall e :: e in entrances <==> e in g.net.edges && e.snk == n && e.src != n
  {
    entrances := set pred | pred in g.links.preds[n] && pred.src != pred.snk;
  }

  /** The entrances of a function. */
  method EntrancesOf(g: Calls, n: nat) returns (entrances: set<Edge>)
    requires IsCallGraph(g) && n in g.net.nodes
    ensures forall e :: e in entrances <==> Enters(g.net.edges, n, e)
  {
    var indirect := HasIndirectRecursion(g, n);
    if indirect {
      entrances := IndirectRecursionEntrances(g, n);
    } else {
      var direct := HasDirectRecursion(g, n);
      if direct {
        entrances := DirectRecursionEntrances(g, n);
      } else {
        entrances := g.links.preds[n];
      }
    }
  }

  ghost function SitesOf(sites: CallSites): Edge -> nat {
    e => if e in sites then sites[e] else 0
  }

  /** The number of call sites behind a set of entrances. */
  method CountSites(entrances: set<Edge>, sites: CallSites) returns (entranceEdges: nat)
    ensures entranceEdges == ControlState.Sum(entrances, SitesOf(sites))
  {
    entranceEdges := 0;
    var done: set<Edge> := {};
    while done < entrances
      invariant done <= entrances
      invariant entranceEdges == ControlState.Sum(done, SitesOf(sites))
      decreases entrances - done
    {
      var e :| e in entrances && e !in done;
      ControlState.SumTake(done + {e}, SitesOf(sites), e);
      assert done + {e} - {e} == done;
      entranceEdges := entranceEdges + if e in sites then sites[e] else 0;
      done := done + {e};
    }
    assert done == entrances;
  }

  // ----- the functions of one strongly connected component -----

  ghost predicate Mutual(E: set<Edge>, a: nat, b: nat) {
    Reach(E, a, b) && Reach(E, b, a)
  }

  lemma SameRecursion(E: set<Edge>, a: nat, b: nat, m: nat)
    requires Mutual(E, a, b) && Indirect(E, a)
    ensures InRecursion(E, a, m) <==> InRecursion(E, b, m)
    ensures InRecursion(E, a, b) && Indirect(E, b)
  {
    if a == b {
      SelfInRecursion(E, a);
    } else {
      MutualIsInRecursion(E, a, b);
      assert a != b && Reach(E, b, a) && Reach(E, a, b);
      if InRecursion(E, a, m) {
        PlusIsReach(IndirectCalls(E), a, m);
        PlusTrans(IndirectCalls(E), b, a, m);
      }
      if InRecursion(E, b, m) {
        PlusIsReach(IndirectCalls(E), b, m);
        PlusTrans(IndirectCalls(E), a, b, m);
      }
    }
  }

  lemma SameEntrances(E: set<Edge>, a: nat, b: nat, e: Edge)
    requires Mutual(E, a, b) && Indirect(E, a)
    ensures Enters(E, a, e) <==> Enters(E, b, e)
  {
    SameRecursion(E, a, b, e.src);
    SameRecursion(E, a, b, e.snk);
  }

  /** A journey from where P fails to where it holds crosses over. */
  lemma Crossing(E: set<Edge>, a: nat, b: nat, P: nat -> bool) returns (e: Edge)
    requires Reach(E, a, b) && !P(a) && P(b)
    ensures e in E && !P(e.src) && P(e.snk) && Reach(E, a, e.src) && Reach(E, e.snk, b)
  {
    var p :| Walk(E, a, b, p);
    var i := 0;
    while i + 1 < |p| && !P(p[i + 1])
      invariant 0 <= i < |p| && !P(p[i])
      decreases |p| - i
    {
      i := i + 1;
    }
    e := Edge(p[i], p[i + 1]);
    assert Walk(E, a, p[i], p[..i + 1]);
    assert Walk(E, p[i + 1], b, p[i + 1..]);
  }

  /** The component of a function that does not lead back to main is entered from outside. */
  lemma EntryEdge(E: set<Edge>, main: nat, f: nat) returns (e: Edge)
    requires Reach(E, main, f) && !Reach(E, f, main)
    ensures e in E && !Reach(E, f, e.src) && Mutual(E, f, e.snk) && Reach(E, main, e.src)
  {
    ReachRefl(E, f);
    e := Crossing(E, main, f, (x: nat) => Reach(E, f, x));
  }

  lemma EntryEnters(E: set<Edge>, f: nat, e: Edge)
    requires Indirect(E, f) && e in E && !Reach(E, f, e.src) && Mutual(E, f, e.snk)
    ensures Enters(E, f, e)
  {
    SameRecursion(E, f, e.snk, e.snk);
    if InRecursion(E, f, e.src) {
      RecursionIsReached(E, f, e.src);
    }
  }

  ghost predicate EqualEntrances(E: set<Edge>, f: nat, h: nat) {
    forall e :: Enters(E, f, e) <==> Enters(E, h, e)
  }

  /** Whatever is in the recursion of f is indirectly recursive. */
  lemma MembersAreIndirect(E: set<Edge>, f: nat, m: nat)
    requires InRecursion(E, f, m)
    ensures Indirect(E, m)
  {
    var e := PlusLast(IndirectCalls(E), f, m);
  }

  lemma MemberOrSelf(E: set<Edge>, f: nat, m: nat)
    requires Indirect(E, f) && Reach(IndirectCalls(E), f, m)
    ensures InRecursion(E, f, m)
  {
    if m == f {
      SelfInRecursion(E, f);
    } else {
      ReachIsPlus(IndirectCalls(E), f, m);
    }
  }

  /** Equal entrances, and h's component entered from outside: then h leads back to f. */
  lemma EqualLeadsBack(E: set<Edge>, main: nat, f: nat, h: nat)
    requires Indirect(E, f) && Indirect(E, h) && EqualEntrances(E, f, h)
    requires Reach(E, main, h) && !Reach(E, h, main)
    ensures Mutual(E, f, h)
  {
    var e := EntryEdge(E, main, h);
    EntryEnters(E, h, e);
    assert Enters(E, f, e);
    RecursionIsReached(E, f, e.snk);
    ReachTrans(E, f, e.snk, h);
    if !Reach(E, h, f) {
      var R := IndirectCalls(E);
      PlusIsReach(R, f, e.snk);
      var d := Crossing(R, f, e.snk, (x: nat) => Reach(E, h, x));
      ReachMono(R, E, d.snk, e.snk);
      ReachTrans(E, d.snk, e.snk, h);
      MemberOrSelf(E, f, d.src);
      EntryEnters(E, h, d);
    }
  }

  /** Functions with equal, non-empty entrances, one of them indirectly recursive, are in one
      component: they share their recursion. */
  lemma EqualIsMutual(E: set<Edge>, main: nat, f: nat, h: nat, e: Edge)
    requires Indirect(E, f) && EqualEntrances(E, f, h) && Enters(E, h, e)
    requires Reach(E, main, f) && Reach(E, main, h)
    ensures Indirect(E, h) && Mutual(E, f, h)
  {
    if !Indirect(E, h) {
      assert Enters(E, f, e);
      MembersAreIndirect(E, f, h);
    }
    if !Reach(E, h, main) {
      EqualLeadsBack(E, main, f, h);
    } else if !Reach(E, f, main) {
      EqualLeadsBack(E, main, h, f);
    } else {
      ReachTrans(E, f, main, h);
      ReachTrans(E, h, main, f);
    }
  }

  // ----- the plan -----

  /** What FindEmbeddedFunctions says of a function. */
  ghost predicate FoundFor(E: set<Edge>, n: nat, embedded: set<Edge>) {
    && (forall e {:trigger e in embedded} :: e in embedded ==> e in E && e.src != e.snk && Below(E, n, e.snk))
    && (!Indirect(E, n) ==> forall e {:trigger e in embedded} ::
          e in embedded <==> e in E && Reach(E, n, e.src) && Embeds(E, e))
    && (Indirect(E, n) ==> forall m {:trigger m in Callees(embedded)} ::
          m in Callees(embedded) <==> Reach(E, n, m) && !InRecursion(E, n, m))
  }

  ghost predicate EmbeddedRight(E: set<Edge>, nodes: set<nat>, emb: Embedded) {
    emb.Keys == nodes && forall n {:trigger emb[n]} :: n in emb ==> FoundFor(E, n, emb[n])
  }

  /** All entrances of a function. */
  ghost function EntranceSet(E: set<Edge>, n: nat): set<Edge> {
    set e | e in E && Enters(E, n, e)
  }

  /** The functions with more than one call site, with their entrances. */
  ghost predicate CallsRight(E: set<Edge>, sites: CallSites, nodes: set<nat>, calls: Embedded) {
    calls.Keys <= nodes && forall n {:trigger n in nodes} :: n in nodes ==>
      (n in calls <==> ControlState.Sum(EntranceSet(E, n), SitesOf(sites)) > 1) && (n in calls ==>
            calls[n] == EntranceSet(E, n))
  }

  lemma Entrance(E: set<Edge>, sites: CallSites, nodes: set<nat>, calls: Embedded, f: nat) returns (e: Edge)
    requires CallsRight(E, sites, nodes, calls) && f in calls
    ensures e in calls[f] && Enters(E, f, e) && e in E && calls[f] == EntranceSet(E, f)
  {
    assert f in nodes;
    assert calls[f] != {};
    e :| e in calls[f];
  }

  /** Dependencies never go round, whatever recursion the call graph has. */
  lemma NoDeadlock(g: Calls, emb: Embedded)
    requires IsCallGraph(g) && EmbeddedRight(g.net.edges, g.net.nodes, emb)
    ensures !Cyclic(Dependencies(emb))
    ensures forall d {:trigger d in Dependencies(emb)} :: d in Dependencies(emb) ==> d.snk in emb
  {
    forall d | d in Dependencies(emb) ensures Below(g.net.edges, d.src, d.snk) && d.snk in emb {
      var f, e :| f in emb && e in emb[f] && d == Edge(f, e.snk);
    }
    BelowIsAcyclic(g.net.edges, Dependencies(emb));
  }

  lemma EqualSets(E: set<Edge>, f: nat, h: nat)
    requires EntranceSet(E, f) == EntranceSet(E, h)
    ensures EqualEntrances(E, f, h)
  {
    forall e ensures Enters(E, f, e) <==> Enters(E, h, e) {
      assert e in EntranceSet(E, f) <==> Enters(E, f, e);
      assert e in EntranceSet(E, h) <==> Enters(E, h, e);
    }
  }

  lemma MutualEmbedSame(E: set<Edge>, f: nat, h: nat, F: set<Edge>, H: set<Edge>)
    requires Mutual(E, f, h) && Indirect(E, f) && FoundFor(E, f, F) && FoundFor(E, h, H)
    ensures Callees(F) == Callees(H)
  {
    forall m ensures m in Callees(F) <==> m in Callees(H) {
      SameRecursion(E, f, h, m);
      if Reach(E, f, m) {
        ReachTrans(E, h, f, m);
      }
      if Reach(E, h, m) {
        ReachTrans(E, f, h, m);
      }
    }
  }

  /** Two inlinable functions with equal call sites, one of them indirectly recursive, embed the
      same functions. */
  lemma EqualCallsEmbedSame(E: set<Edge>, nodes: set<nat>, sites: CallSites, main: nat, emb: Embedded,
                            calls: Embedded, f: nat, h: nat)
    requires EmbeddedRight(E, nodes, emb) && CallsRight(E, sites, nodes, calls)
    requires f in emb && h in emb && f in calls && h in calls && calls[f] == calls[h] && Indirect(E, f)
    requires Reach(E, main, f) && Reach(E, main, h)
    ensures Callees(emb[f]) == Callees(emb[h])
  {
    var d := Entrance(E, sites, nodes, calls, f);
    var e := Entrance(E, sites, nodes, calls, h);
    EqualSets(E, f, h);
    EqualIsMutual(E, main, f, h, e);
    MutualEmbedSame(E, f, h, emb[f], emb[h]);
  }

  /** A function whose component main enters from outside is embedded in main, through an entrance
      of the component. */
  lemma ComponentIsEmbedded(E: set<Edge>, main: nat, embedded: set<Edge>, f: nat) returns (y: nat)
    requires FoundFor(E, main, embedded) && !Indirect(E, main) && f != main && Reach(E, main, f)
    ensures y in Callees(embedded) && Mutual(E, f, y)
  {
    assert Reach(E, f, main) ==> Indirect(E, main);
    var e := EntryEdge(E, main, f);
    y := e.snk;
    assert e.src != e.snk;
    if InRecursion(E, y, e.src) {
      RecursionIsReached(E, y, e.src);
      ReachTrans(E, f, y, e.src);
    }
    assert Embeds(E, e);
    assert e in embedded;
  }

  lemma PlainIsItsComponent(E: set<Edge>, f: nat, y: nat)
    requires Mutual(E, f, y) && !Indirect(E, f)
    ensures f == y
  {
    assert f != y ==> Indirect(E, f);
  }

  lemma SameServes(E: set<Edge>, nodes: set<nat>, sites: CallSites, calls: Embedded, f: nat, y: nat)
    requires CallsRight(E, sites, nodes, calls) && f in calls && y in nodes && Indirect(E, f) && Mutual(E, f, y)
    ensures y in calls && calls[y] == calls[f]
  {
    forall e ensures e in EntranceSet(E, f) <==> e in EntranceSet(E, y) {
      SameEntrances(E, f, y, e);
    }
    assert EntranceSet(E, f) == EntranceSet(E, y);
    assert f in nodes;
  }

  // ----- which calls the schedule holds -----

  /** f is in main's own component, or is reached through a function that main's recursion does not
      swallow. */
  ghost predicate Served(E: set<Edge>, main: nat, f: nat) {
    Reach(E, f, main) || exists d :: Reach(E, main, d) && !InRecursion(E, main, d) && Reach(E, d, f)
  }

  /** The calls of f are an entry of the schedule. */
  ghost predicate Scheduled(calls: Embedded, schedule: seq<set<Edge>>, f: nat)
    requires f in calls
  {
    exists k :: 0 <= k < |schedule| && schedule[k] == calls[f]
  }

  /** What the first loop leaves, on a call graph reached from main. */
  ghost predicate CallsCollected(E: set<Edge>, nodes: set<nat>, sites: CallSites, main: nat, emb: Embedded,
                                 calls: Embedded) {
    && EmbeddedRight(E, nodes, emb) && CallsRight(E, sites, nodes, calls) && main in nodes
    && (forall n {:trigger n in nodes} :: n in nodes ==> Reach(E, main, n))
    && (forall e {:trigger e in E} :: e in E ==> e.src in nodes && e.snk in nodes)
  }

  /** Everything ScheduleInlineTransforms is given and leaves, on a call graph reached from main. */
  ghost predicate Planned(E: set<Edge>, nodes: set<nat>, sites: CallSites, main: nat, emb: Embedded, calls: Embedded,
                          covered: set<nat>, schedule: seq<set<Edge>>, owner: seq<nat>) {
    && CallsCollected(E, nodes, sites, main, emb, calls)
    && Owned(emb, calls, covered, schedule, owner) && Entered(E, calls, covered, schedule, owner)
  }

  lemma OwnerIsCovered(emb: Embedded, calls: Embedded, covered: set<nat>, schedule: seq<set<Edge>>, owner: seq<nat>,
                       k: nat)
    requires Owned(emb, calls, covered, schedule, owner) && k < |schedule|
    ensures owner[k] in covered && owner[k] in calls && calls[owner[k]] == schedule[k]
  {
  }

  /** A plain function lies on the way to what the recursion of main does not swallow. */
  lemma PlainOnTheWay(E: set<Edge>, main: nat, d: nat) returns (p: nat)
    requires Reach(E, main, d) && !InRecursion(E, main, d)
    ensures !Indirect(E, p) && Reach(E, main, p) && !InRecursion(E, main, p) && Reach(E, p, d)
  {
    if !Indirect(E, main) {
      p := main;
      ReachRefl(E, main);
      if InRecursion(E, main, main) {
        MembersAreIndirect(E, main, main);
      }
    } else {
      SelfInRecursion(E, main);
      var e := Crossing(E, main, d, (x: nat) => !InRecursion(E, main, x));
      p := e.snk;
      if Indirect(E, p) {
        assert e in IndirectCalls(E);
        PlusIsReach(IndirectCalls(E), main, e.src);
        ReachSnoc(IndirectCalls(E), main, e);
      }
      ReachSnoc(E, main, e);
    }
  }

  lemma CalleeIsCovered(emb: Embedded, covered: set<nat>, main: nat, n: nat, m: nat)
    requires forall f :: f in covered <==> Reach(Dependencies(emb), main, f)
    requires n in covered && n in emb && m in Callees(emb[n])
    ensures m in covered
  {
    var e :| e in emb[n] && e.snk == m;
    assert Edge(n, m) in Dependencies(emb);
    ReachSnoc(Dependencies(emb), main, Edge(n, m));
  }

  /** A plain function that the walk covered serves all it reaches. */
  lemma PlainServes(E: set<Edge>, nodes: set<nat>, sites: CallSites, main: nat, emb: Embedded, calls: Embedded,
                    covered: set<nat>, p: nat, f: nat) returns (y: nat)
    requires EmbeddedRight(E, nodes, emb) && CallsRight(E, sites, nodes, calls)
    requires forall h :: h in covered <==> Reach(Dependencies(emb), main, h)
    requires p in covered && p in emb && !Indirect(E, p) && Reach(E, p, f) && f in calls
    requires forall e {:trigger e in E} :: e in E ==> e.src in nodes && e.snk in nodes
    ensures y in covered && y in calls && calls[y] == calls[f]
  {
    if f == p {
      return p;
    }
    y := ComponentIsEmbedded(E, p, emb[p], f);
    CalleeIsCovered(emb, covered, main, p, y);
    if !Indirect(E, f) {
      PlainIsItsComponent(E, f, y);
    } else {
      assert y in nodes by {
        var d :| d in emb[p] && d.snk == y;
        assert d in E;
      }
      SameServes(E, nodes, sites, calls, f, y);
    }
  }

  lemma CoveredIsScheduled(E: set<Edge>, calls: Embedded, covered: set<nat>, schedule: seq<set<Edge>>,
                           owner: seq<nat>, h: nat, f: nat)
    requires |owner| == |schedule| && Entered(E, calls, covered, schedule, owner)
    requires h in covered && h in calls && f in calls && calls[h] == calls[f]
    ensures Scheduled(calls, schedule, f)
  {
    var k :| EntryAt(E, calls, schedule, owner, h, k);
    assert schedule[k] == calls[f];
  }

  /** What is served has a covered function with the same calls. */
  lemma ServedHasCovered(E: set<Edge>, nodes: set<nat>, sites: CallSites, main: nat, emb: Embedded, calls: Embedded,
                         covered: set<nat>, f: nat) returns (h: nat)
    requires CallsCollected(E, nodes, sites, main, emb, calls)
    requires forall x :: x in covered <==> Reach(Dependencies(emb), main, x)
    requires f in calls && Served(E, main, f)
    ensures h in covered && h in calls && calls[h] == calls[f]
  {
    ReachRefl(Dependencies(emb), main);
    assert f in nodes;
    if Reach(E, f, main) {
      if !Indirect(E, f) {
        PlainIsItsComponent(E, f, main);
      } else {
        SameServes(E, nodes, sites, calls, f, main);
      }
      h := main;
    } else {
      var d :| Reach(E, main, d) && !InRecursion(E, main, d) && Reach(E, d, f);
      var p := PlainOnTheWay(E, main, d);
      ReachTrans(E, p, d, f);
      PlainIsCovered(E, nodes, main, emb, covered, p);
      h := PlainServes(E, nodes, sites, main, emb, calls, covered, p, f);
    }
  }

  lemma PlainIsCovered(E: set<Edge>, nodes: set<nat>, main: nat, emb: Embedded, covered: set<nat>, p: nat)
    requires EmbeddedRight(E, nodes, emb) && main in nodes
    requires forall e {:trigger e in E} :: e in E ==> e.src in nodes && e.snk in nodes
    requires forall x :: x in covered <==> Reach(Dependencies(emb), main, x)
    requires !Indirect(E, p) && Reach(E, main, p) && !InRecursion(E, main, p)
    ensures p in covered && p in emb
  {
    ReachRefl(Dependencies(emb), main);
    assert FoundFor(E, main, emb[main]);
    if p != main {
      if Indirect(E, main) {
        assert p in Callees(emb[main]);
      } else {
        var y := ComponentIsEmbedded(E, main, emb[main], p);
        PlainIsItsComponent(E, p, y);
      }
      CalleeIsCovered(emb, covered, main, main, p);
      var e := PlusLast(E, main, p) by {
        ReachIsPlus(E, main, p);
      }
    }
  }

  /** Functions with the same calls lead to each other. */
  lemma SameCallsLead(E: set<Edge>, nodes: set<nat>, sites: CallSites, main: nat, calls: Embedded, h: nat, f: nat)
    requires CallsRight(E, sites, nodes, calls) && h in calls && f in calls && calls[h] == calls[f]
    requires forall n {:trigger n in nodes} :: n in nodes ==> Reach(E, main, n)
    ensures Mutual(E, h, f)
  {
    assert h in nodes && f in nodes;
    var d := Entrance(E, sites, nodes, calls, h);
    var e := Entrance(E, sites, nodes, calls, f);
    EqualSets(E, h, f);
    if Indirect(E, h) {
      EqualIsMutual(E, main, h, f, e);
    } else if Indirect(E, f) {
      EqualSets(E, f, h);
      EqualIsMutual(E, main, f, h, d);
    } else {
      assert Enters(E, f, d);
      ReachRefl(E, f);
    }
  }

  /** What the walk covers is main, or lies below something main's recursion does not swallow. */
  lemma CoveredIsServed(E: set<Edge>, nodes: set<nat>, main: nat, emb: Embedded, h: nat) returns (d: nat)
    requires EmbeddedRight(E, nodes, emb) && main in nodes && Indirect(E, main) && Reach(Dependencies(emb), main, h)
    requires h != main
    ensures Reach(E, main, d) && !InRecursion(E, main, d) && Reach(E, d, h)
  {
    var D := Dependencies(emb);
    ReachIsPlus(D, main, h);
    var first :| first in D && first.src == main && Reach(D, first.snk, h);
    d := first.snk;
    var f, e :| f in emb && e in emb[f] && first == Edge(f, e.snk);
    assert FoundFor(E, main, emb[main]);
    assert d in Callees(emb[main]);
    ReachRefl(E, d);
    forall x | x in D && Reach(E, d, x.src) ensures Reach(E, d, x.snk) {
      DependencyIsReached(E, nodes, emb, x);
      ReachTrans(E, d, x.src, x.snk);
    }
    ReachInduction(D, d, h, (x: nat) => Reach(E, d, x));
  }

  lemma DependencyIsReached(E: set<Edge>, nodes: set<nat>, emb: Embedded, x: Edge)
    requires EmbeddedRight(E, nodes, emb) && x in Dependencies(emb)
    ensures Reach(E, x.src, x.snk)
  {
    var f, e :| f in emb && e in emb[f] && x == Edge(f, e.snk);
    assert FoundFor(E, f, emb[f]);
  }

  lemma SameCallsServed(E: set<Edge>, nodes: set<nat>, sites: CallSites, main: nat, emb: Embedded, calls: Embedded,
                        h: nat, f: nat)
    requires EmbeddedRight(E, nodes, emb) && CallsRight(E, sites, nodes, calls) && main in nodes
    requires forall n {:trigger n in nodes} :: n in nodes ==> Reach(E, main, n)
    requires Reach(Dependencies(emb), main, h) && h in calls && f in calls && calls[h] == calls[f]
    ensures Served(E, main, f)
  {
    SameCallsLead(E, nodes, sites, main, calls, h, f);
    if !Indirect(E, main) {
      MainServes(E, nodes, main, f);
    } else if h != main {
      var d := CoveredIsServed(E, nodes, main, emb, h);
      ReachTrans(E, d, h, f);
    }
  }

  lemma MainServes(E: set<Edge>, nodes: set<nat>, main: nat, f: nat)
    requires !Indirect(E, main) && Reach(E, main, f)
    ensures Served(E, main, f)
  {
    ReachRefl(E, main);
    if InRecursion(E, main, main) {
      MembersAreIndirect(E, main, main);
    }
  }

  lemma ServedIsScheduled(E: set<Edge>, nodes: set<nat>, sites: CallSites, main: nat, emb: Embedded, calls: Embedded,
                          covered: set<nat>, schedule: seq<set<Edge>>, owner: seq<nat>, f: nat)
    requires Planned(E, nodes, sites, main, emb, calls, covered, schedule, owner)
    requires forall x :: x in covered <==> Reach(Dependencies(emb), main, x)
    requires f in calls && Served(E, main, f)
    ensures Scheduled(calls, schedule, f)
  {
    var h := ServedHasCovered(E, nodes, sites, main, emb, calls, covered, f);
    CoveredIsScheduled(E, calls, covered, schedule, owner, h, f);
  }

  lemma ScheduledIsServed(E: set<Edge>, nodes: set<nat>, sites: CallSites, main: nat, emb: Embedded, calls: Embedded,
                          covered: set<nat>, schedule: seq<set<Edge>>, owner: seq<nat>, f: nat)
    requires Planned(E, nodes, sites, main, emb, calls, covered, schedule, owner)
    requires forall x :: x in covered <==> Reach(Dependencies(emb), main, x)
    requires f in calls && Scheduled(calls, schedule, f)
    ensures Served(E, main, f)
  {
    var k :| 0 <= k < |schedule| && schedule[k] == calls[f];
    OwnerIsCovered(emb, calls, covered, schedule, owner, k);
    SameCallsServed(E, nodes, sites, main, emb, calls, owner[k], f);
  }

  /** What main's recursion swallows altogether is entered from inside it. */
  lemma SwallowedEntry(E: set<Edge>, main: nat, f: nat) returns (e: Edge)
    requires Reach(E, main, f) && !Served(E, main, f)
    ensures Indirect(E, main) && Indirect(E, f) && Enters(E, f, e) && Mutual(E, f, e.snk)
    ensures InRecursion(E, main, e.src) && e in E
  {
    if !Indirect(E, main) {
      MainServes(E, {}, main, f);
    }
    ReachRefl(E, f);
    assert InRecursion(E, main, f);
    MembersAreIndirect(E, main, f);
    e := EntryEdge(E, main, f);
    EntryEnters(E, f, e);
    ReachCons(E, e, f);
    assert InRecursion(E, main, e.src);
  }

  /** Such an entrance is in no entry. */
  lemma SwallowedIsMissing(E: set<Edge>, nodes: set<nat>, main: nat, emb: Embedded, f: nat, e: Edge, h: nat)
    requires EmbeddedRight(E, nodes, emb) && main in nodes && Indirect(E, main) && Indirect(E, f) && !Served(E, main, f)
    requires Mutual(E, f, e.snk) && InRecursion(E, main, e.src) && Reach(Dependencies(emb), main, h)
    ensures !Enters(E, h, e)
  {
    if Enters(E, h, e) {
      SameRecursion(E, f, e.snk, e.snk);
      if Indirect(E, h) && h != main {
        RecursionIsReached(E, h, e.snk);
        ReachTrans(E, h, e.snk, f);
        var d := CoveredIsServed(E, nodes, main, emb, h);
        ReachTrans(E, d, h, f);
      }
    }
  }

  /** The last check of the debug build: every call to inline is in an entry. */
  ghost predicate AllScheduled(calls: Embedded, schedule: seq<set<Edge>>) {
    forall f, e :: f in calls && e in calls[f] ==> InSchedule(schedule, e)
  }

  ghost predicate InSchedule(schedule: seq<set<Edge>>, e: Edge) {
    exists k :: 0 <= k < |schedule| && e in schedule[k]
  }

  lemma UnservedFails(E: set<Edge>, nodes: set<nat>, sites: CallSites, main: nat, emb: Embedded, calls: Embedded,
                      covered: set<nat>, schedule: seq<set<Edge>>, owner: seq<nat>, f: nat)
    requires Planned(E, nodes, sites, main, emb, calls, covered, schedule, owner)
    requires forall x :: x in covered <==> Reach(Dependencies(emb), main, x)
    requires f in calls && !Served(E, main, f)
    ensures !AllScheduled(calls, schedule)
  {
    assert f in nodes;
    var e := SwallowedEntry(E, main, f);
    assert e in EntranceSet(E, f) && calls[f] == EntranceSet(E, f);
    if InSchedule(schedule, e) {
      var k :| 0 <= k < |schedule| && e in schedule[k];
      OwnerIsCovered(emb, calls, covered, schedule, owner, k);
      var h := owner[k];
      assert h in nodes && calls[h] == EntranceSet(E, h);
      SwallowedIsMissing(E, nodes, main, emb, f, e, h);
    }
  }

  /** The last check passes exactly when every inlinable function is served. */
  lemma LastCheck(E: set<Edge>, nodes: set<nat>, sites: CallSites, main: nat, emb: Embedded, calls: Embedded,
                  covered: set<nat>, schedule: seq<set<Edge>>, owner: seq<nat>)
    requires Planned(E, nodes, sites, main, emb, calls, covered, schedule, owner)
    requires forall x :: x in covered <==> Reach(Dependencies(emb), main, x)
    ensures AllScheduled(calls, schedule) <==> forall f {:trigger f in calls} :: f in calls ==> Served(E, main, f)
  {
    if forall f {:trigger f in calls} :: f in calls ==> Served(E, main, f) {
      forall f, e | f in calls && e in calls[f] ensures InSchedule(schedule, e) {
        ServedIsScheduled(E, nodes, sites, main, emb, calls, covered, schedule, owner, f);
        var k :| 0 <= k < |schedule| && schedule[k] == calls[f];
        assert e in schedule[k];
      }
    } else {
      var f :| f in calls && !Served(E, main, f);
      UnservedFails(E, nodes, sites, main, emb, calls, covered, schedule, owner, f);
    }
  }

  // ----- which embedded calls are scheduled when their function is -----

  /** The check of the debug build when n is covered: every embedded call of an inlinable function
      is in an entry. */
  ghost predicate CallsScheduled(calls: Embedded, schedule: seq<set<Edge>>, embedded: set<Edge>) {
    forall e :: e in embedded && e.snk in calls ==> InSchedule(schedule, e)
  }

  /** A call that its callee's own recursion makes. */
  ghost predicate FromWithin(E: set<Edge>, e: Edge) {
    InRecursion(E, e.snk, e.src)
  }

  /** None of the calls of inlinable functions does. */
  ghost predicate NoneWithin(E: set<Edge>, calls: Embedded, embedded: set<Edge>) {
    forall e :: e in embedded && e.snk in calls ==> !FromWithin(E, e)
  }

  /** A call of another function is an entrance of something exactly when it does not come from
      within its callee's recursion. */
  lemma EntranceOrWithin(E: set<Edge>, e: Edge, h: nat)
    requires e in E && e.src != e.snk
    ensures !FromWithin(E, e) ==> Enters(E, e.snk, e)
    ensures FromWithin(E, e) ==> !Enters(E, h, e)
  {
    var m := e.snk;
    if !FromWithin(E, e) {
      if Indirect(E, m) {
        SelfInRecursion(E, m);
      }
    } else {
      RecursionIsReached(E, m, e.src);
      ReachRefl(E, e.src);
      BackAndForth(E, e);
      if Indirect(E, h) && InRecursion(E, h, m) {
        PlusIsReach(IndirectCalls(E), m, e.src);
        PlusTrans(IndirectCalls(E), h, m, e.src);
      }
    }
  }

  lemma BackAndForth(E: set<Edge>, e: Edge)
    requires e in E && e.src != e.snk && Reach(E, e.snk, e.src)
    ensures Indirect(E, e.snk)
  {
    ReachStep(E, e);
    assert e.src != e.snk && Reach(E, e.snk, e.src) && Reach(E, e.src, e.snk);
  }

  /** An embedded call of an inlinable function, that the walk covered, is in an entry exactly when
      it does not come from within its callee's recursion. */
  lemma CallInSchedule(E: set<Edge>, nodes: set<nat>, sites: CallSites, emb: Embedded, calls: Embedded,
                       covered: set<nat>, schedule: seq<set<Edge>>, owner: seq<nat>, e: Edge)
    requires CallsRight(E, sites, nodes, calls)
    requires Owned(emb, calls, covered, schedule, owner) && Entered(E, calls, covered, schedule, owner)
    requires e in E && e.src != e.snk && e.snk in calls && e.snk in covered
    ensures InSchedule(schedule, e) <==> !FromWithin(E, e)
  {
    var m := e.snk;
    assert m in nodes && calls[m] == EntranceSet(E, m);
    if !FromWithin(E, e) {
      EntranceOrWithin(E, e, m);
      var k :| EntryAt(E, calls, schedule, owner, m, k);
      assert e in schedule[k];
    } else if InSchedule(schedule, e) {
      var k :| 0 <= k < |schedule| && e in schedule[k];
      OwnerIsCovered(emb, calls, covered, schedule, owner, k);
      var h := owner[k];
      assert h in nodes && calls[h] == EntranceSet(E, h);
      EntranceOrWithin(E, e, h);
    }
  }

  /** The check passes at a function whose embedded functions are all covered exactly when the
      function is not indirectly recursive, or none of its embedded calls of inlinable functions
      comes from within its callee's recursion. */
  lemma CoverCheck(E: set<Edge>, nodes: set<nat>, sites: CallSites, emb: Embedded, calls: Embedded,
                   covered: set<nat>, schedule: seq<set<Edge>>, owner: seq<nat>, n: nat)
    requires EmbeddedRight(E, nodes, emb) && CallsRight(E, sites, nodes, calls)
    requires Owned(emb, calls, covered, schedule, owner) && Entered(E, calls, covered, schedule, owner)
    requires n in emb && Callees(emb[n]) <= covered
    ensures CallsScheduled(calls, schedule, emb[n]) <==> !Indirect(E, n) || NoneWithin(E, calls, emb[n])
  {
    assert FoundFor(E, n, emb[n]);
    forall e | e in emb[n] && e.snk in calls ensures InSchedule(schedule, e) <==> !FromWithin(E, e) {
      assert e.snk in Callees(emb[n]);
      CallInSchedule(E, nodes, sites, emb, calls, covered, schedule, owner, e);
    }
    if !Indirect(E, n) {
      forall e | e in emb[n] ensures !FromWithin(E, e) {
        PlainCallsFromOutside(E, e);
      }
    }
  }

  lemma PlainCallsFromOutside(E: set<Edge>, e: Edge)
    requires e in E && Embeds(E, e)
    ensures !FromWithin(E, e)
  {
    if FromWithin(E, e) {
      RecursionIsReached(E, e.snk, e.src);
      BackAndForth(E, e);
    }
  }

  /** The embedded functions and the inlinable calls of every function, then the schedule. For every
      call graph whose functions are all reached from main: there is no deadlock; up to 50000
      functions are scheduled without hitting the cap; every inlinable function main depends on has
      an entry after those of the functions embedded in it; no entry is there twice; the calls of an
      inlinable function are in the schedule exactly when it is served, as they all are when main is
      not indirectly recursive; and exactly when the two checks of the debug build pass. */
  method PlanInlining(g: Calls, main: nat, sites: CallSites)
    returns (threw: bool, schedule: seq<set<Edge>>, ghost emb: Embedded, ghost calls: Embedded)
    requires IsCallGraph(g) && main in g.net.nodes
    requires forall n :: n in g.net.nodes ==> Reach(g.net.edges, main, n)
    ensures EmbeddedRight(g.net.edges, g.net.nodes, emb) && CallsRight(g.net.edges, sites, g.net.nodes, calls)
    ensures threw <==> 2 * |Needed(g.net.nodes, Dependencies(emb), main)| - 1 > MAX_ITERATIONS
    ensures |g.net.nodes| <= 50_000 ==> !threw
    ensures !threw ==> forall f {:trigger f in calls} :: f in calls && Reach(Dependencies(emb), main, f) ==>
      exists k :: 0 <= k < |schedule| && schedule[k] == calls[f] && ChildrenPlaced(emb, calls, schedule, k, f)
    ensures !threw ==> forall f {:trigger f in calls} :: f in calls ==>
      (Scheduled(calls, schedule, f) <==> Served(g.net.edges, main, f))
    ensures !threw ==>
      (AllScheduled(calls, schedule) <==> forall f {:trigger f in calls} :: f in calls ==> Served(g.net.edges, main, f))
    ensures NoneTwice(schedule)
    ensures !threw ==> forall n {:trigger emb[n]} :: n in emb && Reach(Dependencies(emb), main, n) ==>
      (CallsScheduled(calls, schedule, emb[n]) <==> !Indirect(g.net.edges, n) || NoneWithin(g.net.edges, calls, emb[n]))
  {
    var embFunctions, inlineCalls := CollectCalls(g, sites);
    emb, calls := embFunctions, inlineCalls;
    NoDeadlock(g, emb);
    ghost var owner, covered;
    threw, schedule, owner, covered := ScheduleInlineTransforms(g, main, embFunctions, inlineCalls);
    SubsetSize(Needed(g.net.nodes, Dependencies(emb), main), g.net.nodes);
    PlannedOnce(g.net.edges, g.net.nodes, sites, main, emb, calls, covered, schedule, owner);
    if !threw {
      OrderedForAll(g, sites, main, emb, calls, covered, schedule, owner);
      CompleteForAll(g, sites, main, emb, calls, covered, schedule, owner);
      CheckedForAll(g, sites, main, emb, calls, covered, schedule, owner);
    }
  }

  lemma OrderedForAll(g: Calls, sites: CallSites, main: nat, emb: Embedded, calls: Embedded, covered: set<nat>,
                      schedule: seq<set<Edge>>, owner: seq<nat>)
    requires IsCallGraph(g) && EmbeddedRight(g.net.edges, g.net.nodes, emb)
    requires CallsRight(g.net.edges, sites, g.net.nodes, calls)
    requires forall n :: n in g.net.nodes ==> Reach(g.net.edges, main, n)
    requires Owned(emb, calls, covered, schedule, owner) && Entered(g.net.edges, calls, covered, schedule, owner)
    ensures forall f {:trigger f in calls} :: f in calls && f in covered ==>
      exists k :: 0 <= k < |schedule| && schedule[k] == calls[f] && ChildrenPlaced(emb, calls, schedule, k, f)
  {
    forall f | f in calls && f in covered
      ensures exists k :: 0 <= k < |schedule| && schedule[k] == calls[f] && ChildrenPlaced(emb, calls, schedule, k, f)
    {
      if Indirect(g.net.edges, f) {
        forall h | h in covered && h in calls && calls[h] == calls[f] ensures Callees(emb[h]) == Callees(emb[f]) {
          EqualCallsEmbedSame(g.net.edges, g.net.nodes, sites, main, emb, calls, f, h);
        }
      }
      ChildrenFirst(g.net.edges, emb, calls, covered, schedule, owner, f);
    }
  }

  lemma CompleteForAll(g: Calls, sites: CallSites, main: nat, emb: Embedded, calls: Embedded, covered: set<nat>,
                       schedule: seq<set<Edge>>, owner: seq<nat>)
    requires IsCallGraph(g) && Planned(g.net.edges, g.net.nodes, sites, main, emb, calls, covered, schedule, owner)
    requires forall f :: f in covered <==> Reach(Dependencies(emb), main, f)
    ensures forall f {:trigger f in calls} :: f in calls ==>
      (Scheduled(calls, schedule, f) <==> Served(g.net.edges, main, f))
    ensures AllScheduled(calls, schedule) <==> forall f {:trigger f in calls} :: f in calls ==>
      Served(g.net.edges, main, f)
  {
    forall f | f in calls ensures Scheduled(calls, schedule, f) <==> Served(g.net.edges, main, f) {
      if Served(g.net.edges, main, f) {
        ServedIsScheduled(g.net.edges, g.net.nodes, sites, main, emb, calls, covered, schedule, owner, f);
      }
      if Scheduled(calls, schedule, f) {
        ScheduledIsServed(g.net.edges, g.net.nodes, sites, main, emb, calls, covered, schedule, owner, f);
      }
    }
    LastCheck(g.net.edges, g.net.nodes, sites, main, emb, calls, covered, schedule, owner);
  }

  lemma CheckedForAll(g: Calls, sites: CallSites, main: nat, emb: Embedded, calls: Embedded, covered: set<nat>,
                      schedule: seq<set<Edge>>, owner: seq<nat>)
    requires EmbeddedRight(g.net.edges, g.net.nodes, emb) && CallsRight(g.net.edges, sites, g.net.nodes, calls)
    requires Owned(emb, calls, covered, schedule, owner) && Entered(g.net.edges, calls, covered, schedule, owner)
    requires forall f :: f in covered <==> Reach(Dependencies(emb), main, f)
    ensures forall n {:trigger emb[n]} :: n in emb && Reach(Dependencies(emb), main, n) ==>
      (CallsScheduled(calls, schedule, emb[n]) <==> !Indirect(g.net.edges, n) || NoneWithin(g.net.edges, calls, emb[n]))
  {
    forall n | n in emb && Reach(Dependencies(emb), main, n)
      ensures CallsScheduled(calls, schedule, emb[n]) <==>
                !Indirect(g.net.edges, n) || NoneWithin(g.net.edges, calls, emb[n])
    {
      forall m | m in Callees(emb[n]) ensures m in covered {
        CalleeIsCovered(emb, covered, main, n, m);
      }
      CoverCheck(g.net.edges, g.net.nodes, sites, emb, calls, covered, schedule, owner, n);
    }
  }

  /** No entry is there twice. */
  ghost predicate NoneTwice(schedule: seq<set<Edge>>) {
    forall j, k :: 0 <= j < k < |schedule| ==> schedule[j] != schedule[k]
  }

  /** Functions with equal calls lead to each other: of two with equal entries both would be
      indirectly recursive, and those share one. */
  lemma PlannedOnce(E: set<Edge>, nodes: set<nat>, sites: CallSites, main: nat, emb: Embedded, calls: Embedded,
                    covered: set<nat>, schedule: seq<set<Edge>>, owner: seq<nat>)
    requires CallsRight(E, sites, nodes, calls) && Owned(emb, calls, covered, schedule, owner)
    requires forall n {:trigger n in nodes} :: n in nodes ==> Reach(E, main, n)
    requires AllKeptOnce(E, schedule, owner)
    ensures NoneTwice(schedule)
  {
    forall j, k | 0 <= j < k < |schedule| ensures schedule[j] != schedule[k] {
      assert KeptOnce(E, schedule, owner, j, k);
      OwnerIsCovered(emb, calls, covered, schedule, owner, j);
      OwnerIsCovered(emb, calls, covered, schedule, owner, k);
      if schedule[j] == schedule[k] {
        SameCallsLead(E, nodes, sites, main, calls, owner[j], owner[k]);
      }
    }
  }

  /** What the loop finds out about one function. */
  method CallsOf(g: Calls, sites: CallSites, node: nat)
    returns (embedded: set<Edge>, entrances: set<Edge>, inlinable: bool)
    requires IsCallGraph(g) && node in g.net.nodes
    ensures FoundFor(g.net.edges, node, embedded) && entrances == EntranceSet(g.net.edges, node)
    ensures inlinable <==> ControlState.Sum(EntranceSet(g.net.edges, node), SitesOf(sites)) > 1
  {
    embedded := FindEmbeddedFunctions(g, node);
    entrances := EntrancesOf(g, node);
    assert entrances == EntranceSet(g.net.edges, node);
    var entranceEdges := CountSites(entrances, sites);
    inlinable := entranceEdges > 1;
  }

  /** The first loop of VirtualizeSharedFunctions. */
  method CollectCalls(g: Calls, sites: CallSites) returns (embFunctions: Embedded, inlineCalls: Embedded)
    requires IsCallGraph(g)
    ensures EmbeddedRight(g.net.edges, g.net.nodes, embFunctions)
    ensures CallsRight(g.net.edges, sites, g.net.nodes, inlineCalls)
  {
    embFunctions, inlineCalls := map[], map[];
    var done: set<nat> := {};
    while done < g.net.nodes
      invariant done <= g.net.nodes
      invariant EmbeddedRight(g.net.edges, done, embFunctions) && CallsRight(g.net.edges, sites, done, inlineCalls)
      decreases g.net.nodes - done
    {
      var node :| node in g.net.nodes && node !in done;
      var embedded, entrances, inlinable := CallsOf(g, sites, node);
      embFunctions := embFunctions[node := embedded];
      if inlinable {
        inlineCalls := inlineCalls[node := entrances];
      }
      done := done + {node};
    }
    assert done == g.net.nodes;
  }

  // ----- an embedded call from within its callee's recursion -----

  /** main calls 1, which is in a recursion with 2 and calls 3, which calls 4, which is in a recursion
      with 5. */
  const TwoRecursions: set<Edge> :=
    {Edge(0, 1), Edge(1, 2), Edge(2, 1), Edge(1, 3), Edge(3, 4), Edge(4, 5), Edge(5, 4)}

  lemma BeyondPlain(m: nat)
    requires InRecursion(TwoRecursions, 1, m)
    ensures m == 1 || m == 2
  {
    var E := TwoRecursions;
    var R := IndirectCalls(E);
    forall x | Reach(E, 3, x) ensures x >= 3 {
      ReachInduction(E, 3, x, (y: nat) => y >= 3);
    }
    assert !Indirect(E, 3) by {
      if x :| x != 3 && Reach(E, 3, x) && Reach(E, x, 3) {
        ReachInduction(E, x, 3, (y: nat) => y > 3);
      }
    }
    PlusIsReach(R, 1, m);
    ReachInduction(R, 1, m, (x: nat) => x == 1 || x == 2);
  }

  lemma EntrancesOfFive()
    ensures EntranceSet(TwoRecursions, 5) == {Edge(3, 4)}
  {
    var E := TwoRecursions;
    CallEachOther(E, 4, 5);
    forall m | InRecursion(E, 5, m) ensures m == 4 || m == 5 {
      RecursionIsReached(E, 5, m);
      ReachInduction(E, 5, m, (x: nat) => x == 4 || x == 5);
    }
    forall e | e in E ensures Enters(E, 5, e) <==> e == Edge(3, 4) {
    }
  }

  /** With a plain main the check fails at 1: the call of 5 by 4 is embedded in 1, but 4 is in the
      recursion of 5, whose only entrance is the call of 4. */
  lemma CoverCheckFails(emb: Embedded, calls: Embedded, covered: set<nat>, schedule: seq<set<Edge>>, owner: seq<nat>)
    requires var sites := map[Edge(3, 4) := 2];
      && EmbeddedRight(TwoRecursions, {0, 1, 2, 3, 4, 5}, emb)
      && CallsRight(TwoRecursions, sites, {0, 1, 2, 3, 4, 5}, calls)
    requires Owned(emb, calls, covered, schedule, owner) && Entered(TwoRecursions, calls, covered, schedule, owner)
    requires Callees(emb[1]) <= covered
    ensures Edge(4, 5) in emb[1] && 5 in calls && !CallsScheduled(calls, schedule, emb[1])
  {
    var E, sites: CallSites := TwoRecursions, map[Edge(3, 4) := 2];
    EntrancesOfFive();
    ControlState.SumTake({Edge(3, 4)}, SitesOf(sites), Edge(3, 4));
    CallEachOther(E, 1, 2);
    CallEachOther(E, 4, 5);
    FiveIsEmbedded(emb[1]);
    assert FromWithin(E, Edge(4, 5));
    CoverCheck(E, {0, 1, 2, 3, 4, 5}, sites, emb, calls, covered, schedule, owner, 1);
  }

  lemma FiveIsBelow()
    ensures Reach(TwoRecursions, 1, 5) && !InRecursion(TwoRecursions, 1, 5) && Indirect(TwoRecursions, 1)
  {
    var E := TwoRecursions;
    CallEachOther(E, 1, 2);
    assert Walk(E, 1, 5, [1, 3, 4, 5]);
    if InRecursion(E, 1, 5) {
      BeyondPlain(5);
    }
  }

  lemma FiveIsEmbedded(embedded: set<Edge>)
    requires FoundFor(TwoRecursions, 1, embedded)
    ensures Edge(4, 5) in embedded
  {
    FiveIsBelow();
    assert 5 in Callees(embedded);
    var e :| e in embedded && e.snk == 5;
    OnlyFourCallsFive(e);
  }

  lemma OnlyFourCallsFive(e: Edge)
    requires e in TwoRecursions && e.snk == 5
    ensures e == Edge(4, 5)
  {
  }

  // ----- a recursive main -----

  /** main calls 1, which calls main, and 2, which is in a recursion with 3. */
  const RecursiveMain: set<Edge> := {Edge(0, 1), Edge(1, 0), Edge(0, 2), Edge(2, 3), Edge(3, 2)}

  lemma CallEachOther(E: set<Edge>, a: nat, b: nat)
    requires Edge(a, b) in E && Edge(b, a) in E && a != b
    ensures Indirect(E, a) && Indirect(E, b)
    ensures InRecursion(E, a, a) && InRecursion(E, a, b) && InRecursion(E, b, a) && InRecursion(E, b, b)
  {
    ReachStep(E, Edge(a, b));
    ReachStep(E, Edge(b, a));
    assert b != a && Reach(E, a, b) && Reach(E, b, a);
    MutualIsInRecursion(E, a, b);
    MutualIsInRecursion(E, b, a);
  }

  lemma CallsInto(E: set<Edge>, a: nat, b: nat, m: nat)
    requires Edge(a, b) in E && a != b && Indirect(E, b) && InRecursion(E, b, m)
    ensures InRecursion(E, a, m)
  {
    var R := IndirectCalls(E);
    assert Edge(a, b) in R;
    PlusIsReach(R, b, m);
    ReachCons(R, Edge(a, b), m);
  }

  lemma InTheRecursionOfMain(m: nat)
    requires m < 4
    ensures Indirect(RecursiveMain, m) && InRecursion(RecursiveMain, 0, m)
  {
    if m < 2 {
      CallEachOther(RecursiveMain, 0, 1);
    } else {
      CallEachOther(RecursiveMain, 2, 3);
      CallsInto(RecursiveMain, 0, 2, m);
    }
  }

  lemma OneEntrance()
    ensures EntranceSet(RecursiveMain, 2) == {Edge(0, 2)}
  {
    var E := RecursiveMain;
    CallEachOther(E, 2, 3);
    forall m | InRecursion(E, 2, m) ensures m == 2 || m == 3 {
      RecursionIsReached(E, 2, m);
      ReachInduction(E, 2, m, (x: nat) => x == 2 || x == 3);
    }
    forall e | e in E ensures Enters(E, 2, e) <==> e == Edge(0, 2) {
    }
  }

  /** When main is indirectly recursive the schedule can miss an inlinable function: 2 has two call
      sites, but main's recursion swallows everything, and main depends on nothing. */
  lemma RecursiveMainMisses(emb: Embedded, calls: Embedded, covered: set<nat>, schedule: seq<set<Edge>>,
                            owner: seq<nat>)
    requires var sites := map[Edge(0, 2) := 2];
      EmbeddedRight(RecursiveMain, {0, 1, 2, 3}, emb) && CallsRight(RecursiveMain, sites, {0, 1, 2, 3}, calls)
    requires Owned(emb, calls, covered, schedule, owner) && forall f :: f in covered <==> Reach(Dependencies(emb), 0, f)
    ensures 2 in calls && covered == {0} && schedule == [] && !AllScheduled(calls, schedule)
  {
    var E, sites: CallSites := RecursiveMain, map[Edge(0, 2) := 2];
    OneEntrance();
    ControlState.SumTake({Edge(0, 2)}, SitesOf(sites), Edge(0, 2));
    NothingBelowMain(emb);
    forall f | f in covered ensures f == 0 {
      ReachInduction(Dependencies(emb), 0, f, (x: nat) => x == 0);
    }
    ReachRefl(Dependencies(emb), 0);
    MainHasNoEntrance();
    assert 0 !in calls;
    if schedule != [] {
      OwnerIsCovered(emb, calls, covered, schedule, owner, 0);
    }
    assert Edge(0, 2) in calls[2] && !InSchedule(schedule, Edge(0, 2));
  }

  lemma MainHasNoEntrance()
    ensures EntranceSet(RecursiveMain, 0) == {}
  {
    forall m | m < 4 ensures Indirect(RecursiveMain, m) && InRecursion(RecursiveMain, 0, m) {
      InTheRecursionOfMain(m);
    }
  }

  lemma NothingBelowMain(emb: Embedded)
    requires EmbeddedRight(RecursiveMain, {0, 1, 2, 3}, emb)
    ensures forall d {:trigger d in Dependencies(emb)} :: d in Dependencies(emb) ==> d.src != 0
  {
    InTheRecursionOfMain(0);
    forall d | d in Dependencies(emb) ensures d.src != 0 {
      var f, e :| f in emb && e in emb[f] && d == Edge(f, e.snk);
      if f == 0 {
        assert e.snk in Callees(emb[0]);
        InTheRecursionOfMain(e.snk);
      }
    }
  }
}
