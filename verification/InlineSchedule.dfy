/** ScheduleInlineTransforms: the order in which functions are inlined, by a depth-first walk over
    the embedded functions with an explicit stack. */
module InlineSchedule {
  import opened Graphs
  import opened Sets
  import opened CycleSearch
  import opened Recursion
  import opened Embedding

  const MAX_ITERATIONS: nat := 100_000

  /** The embedded calls of every function, and the call sites of every inlinable one. */
  type Embedded = map<nat, set<Edge>>

  /** f depends on every function its embedded calls lead to. */
  function Dependencies(emb: Embedded): set<Edge> {
    set f, e | f in emb && e in emb[f] :: Edge(f, e.snk)
  }

  ghost predicate Schedulable(emb: Embedded, main: nat) {
    && main in emb && !Cyclic(Dependencies(emb))
    && forall d {:trigger d in Dependencies(emb)} :: d in Dependencies(emb) ==> d.snk in emb
  }

  // ----- the stack -----

  ghost predicate Link(D: set<Edge>, Q: seq<nat>, i: int) {
    0 <= i < |Q| - 1 ==> Edge(Q[i], Q[i + 1]) in D
  }

  /** The stack, bottom first, is a chain of dependencies from main. */
  ghost predicate IsChain(D: set<Edge>, main: nat, Q: seq<nat>) {
    && (Q != [] ==> Q[0] == main)
    && (forall i {:trigger Link(D, Q, i)} :: Link(D, Q, i))
  }

  lemma ChainReaches(D: set<Edge>, main: nat, Q: seq<nat>, i: nat, j: nat)
    requires IsChain(D, main, Q) && i <= j < |Q|
    ensures Reach(D, Q[i], Q[j])
  {
    if i == j {
      ReachRefl(D, Q[i]);
    } else {
      ChainReaches(D, main, Q, i, j - 1);
      assert Link(D, Q, j - 1);
      ReachSnoc(D, Q[i], Edge(Q[j - 1], Q[j]));
    }
  }

  /** No deadlock: what the top of the stack waits for is never on the stack. */
  lemma NeverWaitsForItself(D: set<Edge>, main: nat, Q: seq<nat>, dep: nat)
    requires IsChain(D, main, Q) && |Q| > 0 && !Cyclic(D) && Edge(Q[|Q| - 1], dep) in D
    ensures dep !in Q
  {
    if dep in Q {
      var i :| 0 <= i < |Q| && Q[i] == dep;
      ChainReaches(D, main, Q, i, |Q| - 1);
      ReachSnoc(D, dep, Edge(Q[|Q| - 1], dep));
    }
  }

  // ----- what the walk knows -----

  datatype Stage = Stage(Q: seq<nat>, covered: set<nat>, iterations: nat)

  ghost predicate Differ(Q: seq<nat>, i: int, j: int) {
    0 <= i < j < |Q| ==> Q[i] != Q[j]
  }

  ghost predicate Apart(Q: seq<nat>) {
    forall i, j {:trigger Differ(Q, i, j)} :: Differ(Q, i, j)
  }

  /** Nothing on the stack is covered, but for the top right after its turn. */
  ghost predicate Stacked(D: set<Edge>, main: nat, Q: seq<nat>, covered: set<nat>) {
    IsChain(D, main, Q) && Apart(Q) && forall i :: 0 <= i < |Q| - 1 ==> Q[i] !in covered
  }

  /** Covered functions have covered dependencies, and main depends on them. */
  ghost predicate Covered(D: set<Edge>, main: nat, covered: set<nat>) {
    && (forall d {:trigger d in D} :: d in D && d.src in covered ==> d.snk in covered)
    && (forall f {:trigger f in covered} :: f in covered ==> Reach(D, main, f))
  }

  /** The walk so far: every counted iteration covered a function or pushed one. */
  ghost function Stages(nodes: set<nat>, D: set<Edge>, main: nat): iset<Stage> {
    iset w: Stage | && Stacked(D, main, w.Q, w.covered) && Covered(D, main, w.covered)
                    && Elems(w.Q) + w.covered <= nodes && main in Elems(w.Q) + w.covered
                    && w.iterations + 1 == |w.covered| + |Elems(w.Q) + w.covered|
  }

  lemma WalkStarts(nodes: set<nat>, D: set<Edge>, main: nat)
    requires main in nodes
    ensures Stage([main], {}, 0) in Stages(nodes, D, main)
  {
    assert Elems([main]) + {} == {main};
  }

  /** The functions main depends on, itself among them. */
  ghost function Needed(nodes: set<nat>, D: set<Edge>, main: nat): set<nat> {
    set f | f in nodes && Reach(D, main, f)
  }

  /** At most one iteration per function covered and one per function pushed after main. */
  lemma FewIterations(nodes: set<nat>, D: set<Edge>, main: nat, w: Stage)
    requires w in Stages(nodes, D, main)
    ensures w.iterations <= 2 * |Needed(nodes, D, main)| - 1
  {
    var R := Needed(nodes, D, main);
    forall f | f in w.Q ensures f in R {
      var i :| 0 <= i < |w.Q| && w.Q[i] == f;
      ChainReaches(D, main, w.Q, 0, i);
      assert f in Elems(w.Q);
    }
    SubsetSize(w.covered, R);
    SubsetSize(Elems(w.Q) + w.covered, R);
  }

  /** And exactly that many in the end. */
  lemma AllIterations(nodes: set<nat>, D: set<Edge>, main: nat, w: Stage)
    requires w in Stages(nodes, D, main) && w.Q == []
    ensures w.iterations == 2 * |Needed(nodes, D, main)| - 1
  {
    WalkEnds(nodes, D, main, w);
    assert Elems(w.Q) + w.covered == w.covered;
    assert w.covered == Needed(nodes, D, main);
  }

  lemma StackFacts(Q: seq<nat>)
    requires |Q| > 0
    ensures Elems(Q) == Elems(Q[..|Q| - 1]) + {Q[|Q| - 1]}
  {
    assert Q == Q[..|Q| - 1] + [Q[|Q| - 1]];
  }

  lemma StackPops(D: set<Edge>, main: nat, Q: seq<nat>, covered: set<nat>)
    requires Stacked(D, main, Q, covered) && |Q| > 0
    ensures Stacked(D, main, Q[..|Q| - 1], covered)
  {
    var R := Q[..|Q| - 1];
    forall i ensures Link(D, R, i) {
      assert Link(D, Q, i);
    }
    forall i, j ensures Differ(R, i, j) {
      assert Differ(Q, i, j);
    }
  }

  lemma StackPushes(D: set<Edge>, main: nat, Q: seq<nat>, covered: set<nat>, dep: nat)
    requires Stacked(D, main, Q, covered) && |Q| > 0 && Q[|Q| - 1] !in covered
    requires Edge(Q[|Q| - 1], dep) in D && dep !in Q
    ensures Stacked(D, main, Q + [dep], covered)
  {
    var R := Q + [dep];
    forall i ensures Link(D, R, i) {
      assert Link(D, Q, i);
    }
    forall i, j ensures Differ(R, i, j) {
      assert Differ(Q, i, j);
    }
  }

  lemma StackCovers(D: set<Edge>, main: nat, Q: seq<nat>, covered: set<nat>)
    requires Stacked(D, main, Q, covered) && |Q| > 0
    ensures Stacked(D, main, Q, covered + {Q[|Q| - 1]}) && Reach(D, main, Q[|Q| - 1])
  {
    ChainReaches(D, main, Q, 0, |Q| - 1);
    forall i | 0 <= i < |Q| - 1 ensures Q[i] !in covered + {Q[|Q| - 1]} {
      assert Differ(Q, i, |Q| - 1);
    }
  }

  lemma CoverOne(D: set<Edge>, main: nat, covered: set<nat>, top: nat)
    requires Covered(D, main, covered) && Reach(D, main, top)
    requires forall d {:trigger d in D} :: d in D && d.src == top ==> d.snk in covered
    ensures Covered(D, main, covered + {top})
  {
  }

  lemma WalkPops(nodes: set<nat>, D: set<Edge>, main: nat, w: Stage)
    requires w in Stages(nodes, D, main) && |w.Q| > 0 && w.Q[|w.Q| - 1] in w.covered
    ensures w.(Q := w.Q[..|w.Q| - 1]) in Stages(nodes, D, main)
  {
    StackPops(D, main, w.Q, w.covered);
    StackFacts(w.Q);
    assert Elems(w.Q[..|w.Q| - 1]) + w.covered == Elems(w.Q) + w.covered;
  }

  lemma WalkCovers(nodes: set<nat>, D: set<Edge>, main: nat, w: Stage)
    requires w in Stages(nodes, D, main) && |w.Q| > 0 && w.Q[|w.Q| - 1] !in w.covered
    requires forall d {:trigger d in D} :: d in D && d.src == w.Q[|w.Q| - 1] ==> d.snk in w.covered
    ensures Stage(w.Q, w.covered + {w.Q[|w.Q| - 1]}, w.iterations + 1) in Stages(nodes, D, main)
  {
    var top := w.Q[|w.Q| - 1];
    assert top in Elems(w.Q);
    assert Elems(w.Q) + (w.covered + {top}) == Elems(w.Q) + w.covered;
    StackCovers(D, main, w.Q, w.covered);
    CoverOne(D, main, w.covered, top);
  }

  lemma SeenGrows(Q: seq<nat>, covered: set<nat>, dep: nat)
    requires dep !in Q && dep !in covered
    ensures Elems(Q + [dep]) + covered == Elems(Q) + covered + {dep}
    ensures |Elems(Q + [dep]) + covered| == |Elems(Q) + covered| + 1
  {
    var seen := Elems(Q) + covered;
    assert dep !in seen;
    forall m ensures m in Elems(Q + [dep]) + covered <==> m in seen + {dep} {
    }
    assert Elems(Q + [dep]) + covered == seen + {dep};
  }

  lemma WalkPushes(nodes: set<nat>, D: set<Edge>, main: nat, w: Stage, dep: nat)
    requires w in Stages(nodes, D, main) && |w.Q| > 0 && w.Q[|w.Q| - 1] !in w.covered
    requires Edge(w.Q[|w.Q| - 1], dep) in D && dep in nodes && dep !in w.covered && dep !in w.Q
    ensures Stage(w.Q + [dep], w.covered, w.iterations + 1) in Stages(nodes, D, main)
  {
    StackPushes(D, main, w.Q, w.covered, dep);
    SeenGrows(w.Q, w.covered, dep);
  }

  /** When the stack is empty, exactly the dependencies of main, direct or not, were covered. */
  lemma WalkEnds(nodes: set<nat>, D: set<Edge>, main: nat, w: Stage)
    requires w in Stages(nodes, D, main) && w.Q == []
    ensures forall f :: f in w.covered <==> Reach(D, main, f)
  {
    assert Elems([]) == {};
    forall f | Reach(D, main, f) ensures f in w.covered {
      ReachInduction(D, main, f, (x: nat) => x in w.covered);
    }
  }

  // ----- the schedule -----

  /** The call sites of an inlinable function are among the first k entries. */
  ghost predicate EntryPlaced(calls: Embedded, schedule: seq<set<Edge>>, k: nat, f: nat)
    requires f in calls
  {
    exists j :: 0 <= j < k && j < |schedule| && schedule[j] == calls[f]
  }

  /** The inlinable functions embedded in f are among the first k entries. */
  ghost predicate ChildrenPlaced(emb: Embedded, calls: Embedded, schedule: seq<set<Edge>>, k: nat, f: nat)
    requires f in emb
  {
    forall m {:trigger m in Callees(emb[f])} :: m in Callees(emb[f]) && m in calls ==>
      EntryPlaced(calls, schedule, k, m)
  }

  /** Every entry belongs to a covered function, and comes after the functions embedded in it. */
  ghost predicate Owned(emb: Embedded, calls: Embedded, covered: set<nat>, schedule: seq<set<Edge>>, owner: seq<nat>) {
    && |owner| == |schedule| && covered <= emb.Keys
    && forall k {:trigger owner[k]} :: 0 <= k < |schedule| ==>
         && owner[k] in covered && owner[k] in calls && schedule[k] == calls[owner[k]]
         && ChildrenPlaced(emb, calls, schedule, k, owner[k])
  }

  /** The entry of f is at k: its own, or for an indirectly recursive function one with equal call sites. */
  ghost predicate EntryAt(E: set<Edge>, calls: Embedded, schedule: seq<set<Edge>>, owner: seq<nat>, f: nat, k: int)
    requires |owner| == |schedule| && f in calls
  {
    0 <= k < |schedule| && schedule[k] == calls[f] && (owner[k] == f || Indirect(E, f))
  }

  /** The entries at j and k have different owners; and an indirectly recursive function owns none that
      is there already. */
  ghost predicate KeptOnce(E: set<Edge>, schedule: seq<set<Edge>>, owner: seq<nat>, j: int, k: int)
    requires |owner| == |schedule|
  {
    0 <= j < k < |schedule| ==> owner[j] != owner[k] && (Indirect(E, owner[k]) ==> schedule[j] != schedule[k])
  }

  ghost predicate AllKeptOnce(E: set<Edge>, schedule: seq<set<Edge>>, owner: seq<nat>)
    requires |owner| == |schedule|
  {
    forall j, k {:trigger KeptOnce(E, schedule, owner, j, k)} :: KeptOnce(E, schedule, owner, j, k)
  }

  /** Every covered inlinable function has an entry, and entries are kept once. */
  ghost predicate Entered(E: set<Edge>, calls: Embedded, covered: set<nat>, schedule: seq<set<Edge>>, owner: seq<nat>)
    requires |owner| == |schedule|
  {
    && (forall f {:trigger f in covered} :: f in covered && f in calls ==> exists k ::
          EntryAt(E, calls, schedule, owner, f, k))
    && AllKeptOnce(E, schedule, owner)
  }

  lemma DepsReady(E: set<Edge>, emb: Embedded, calls: Embedded, covered: set<nat>, schedule: seq<set<Edge>>,
                  owner: seq<nat>, f: nat)
    requires |owner| == |schedule| && Entered(E, calls, covered, schedule, owner) && f in emb
    requires Callees(emb[f]) <= covered
    ensures ChildrenPlaced(emb, calls, schedule, |schedule|, f)
  {
    forall m | m in Callees(emb[f]) && m in calls ensures EntryPlaced(calls, schedule, |schedule|, m) {
      var k :| EntryAt(E, calls, schedule, owner, m, k);
    }
  }

  lemma StaysReady(emb: Embedded, calls: Embedded, schedule: seq<set<Edge>>, k: nat, f: nat, entry: set<Edge>)
    requires f in emb && ChildrenPlaced(emb, calls, schedule, k, f)
    ensures ChildrenPlaced(emb, calls, schedule + [entry], k, f)
  {
    forall m | m in Callees(emb[f]) && m in calls ensures EntryPlaced(calls, schedule + [entry], k, m) {
      var j :| 0 <= j < k && j < |schedule| && schedule[j] == calls[m];
      assert (schedule + [entry])[j] == calls[m];
    }
  }

  lemma NewIsOnce(E: set<Edge>, emb: Embedded, calls: Embedded, covered: set<nat>, schedule: seq<set<Edge>>,
                  owner: seq<nat>, f: nat, entry: set<Edge>)
    requires Owned(emb, calls, covered, schedule, owner) && AllKeptOnce(E, schedule, owner)
    requires f !in covered && (Indirect(E, f) ==> entry !in schedule)
    ensures AllKeptOnce(E, schedule + [entry], owner + [f])
  {
    var s, o := schedule + [entry], owner + [f];
    forall j, k ensures KeptOnce(E, s, o, j, k) {
      assert KeptOnce(E, schedule, owner, j, k);
      if 0 <= j < k == |schedule| {
        assert owner[j] in covered;
      }
    }
  }

  lemma NewIsOwned(E: set<Edge>, emb: Embedded, calls: Embedded, covered: set<nat>, schedule: seq<set<Edge>>,
                   owner: seq<nat>, f: nat)
    requires Owned(emb, calls, covered, schedule, owner) && Entered(E, calls, covered, schedule, owner)
    requires f in emb && f in calls && Callees(emb[f]) <= covered
    ensures Owned(emb, calls, covered + {f}, schedule + [calls[f]], owner + [f])
  {
    var s, o := schedule + [calls[f]], owner + [f];
    DepsReady(E, emb, calls, covered, schedule, owner, f);
    forall k | 0 <= k < |s|
      ensures o[k] in covered + {f} && o[k] in calls && s[k] == calls[o[k]] && ChildrenPlaced(emb, calls, s, k, o[k])
    {
      if k < |schedule| {
        assert o[k] == owner[k];
      }
      StaysReady(emb, calls, schedule, k, o[k], calls[f]);
    }
  }

  /** A new entry at the end. */
  lemma PushEntry(E: set<Edge>, emb: Embedded, calls: Embedded, covered: set<nat>, schedule: seq<set<Edge>>,
                  owner: seq<nat>, f: nat)
    requires Owned(emb, calls, covered, schedule, owner) && Entered(E, calls, covered, schedule, owner)
    requires f in emb && f in calls && Callees(emb[f]) <= covered
    requires f !in covered && (Indirect(E, f) ==> calls[f] !in schedule)
    ensures Owned(emb, calls, covered + {f}, schedule + [calls[f]], owner + [f])
    ensures Entered(E, calls, covered + {f}, schedule + [calls[f]], owner + [f])
  {
    var s, o := schedule + [calls[f]], owner + [f];
    NewIsOwned(E, emb, calls, covered, schedule, owner, f);
    NewIsOnce(E, emb, calls, covered, schedule, owner, f, calls[f]);
    forall m | m in covered + {f} && m in calls ensures exists k :: EntryAt(E, calls, s, o, m, k) {
      if m == f {
        assert EntryAt(E, calls, s, o, m, |schedule|);
      } else {
        var k :| EntryAt(E, calls, schedule, owner, m, k);
        assert EntryAt(E, calls, s, o, m, k);
      }
    }
  }

  /** The entry of an indirectly recursive function that is there already. */
  lemma ShareEntry(E: set<Edge>, emb: Embedded, calls: Embedded, covered: set<nat>, schedule: seq<set<Edge>>,
                   owner: seq<nat>, f: nat, k: nat)
    requires Owned(emb, calls, covered, schedule, owner) && Entered(E, calls, covered, schedule, owner)
    requires f in emb && f in calls && Indirect(E, f) && k < |schedule| && schedule[k] == calls[f]
    ensures Owned(emb, calls, covered + {f}, schedule, owner)
    ensures Entered(E, calls, covered + {f}, schedule, owner)
  {
    assert EntryAt(E, calls, schedule, owner, f, k);
  }

  /** A function without call sites to inline. */
  lemma NoEntry(E: set<Edge>, emb: Embedded, calls: Embedded, covered: set<nat>, schedule: seq<set<Edge>>,
                owner: seq<nat>, f: nat)
    requires Owned(emb, calls, covered, schedule, owner) && Entered(E, calls, covered, schedule, owner)
    requires f in emb && f !in calls
    ensures Owned(emb, calls, covered + {f}, schedule, owner)
    ensures Entered(E, calls, covered + {f}, schedule, owner)
  {
  }

  /** Scheduling one inlinable function: equal entries of indirectly recursive functions are kept once. */
  method PlaceFunction(g: Calls, emb: Embedded, calls: Embedded, f: nat, ghost covered: set<nat>,
                       schedule0: seq<set<Edge>>, ghost owner0: seq<nat>)
    returns (schedule: seq<set<Edge>>, ghost owner: seq<nat>)
    requires IsCallGraph(g) && f in g.net.nodes && f in emb && f in calls && Callees(emb[f]) <= covered
    requires f !in covered
    requires Owned(emb, calls, covered, schedule0, owner0) && Entered(g.net.edges, calls, covered, schedule0, owner0)
    ensures schedule == if Indirect(g.net.edges, f) && calls[f] in schedule0 then schedule0 else schedule0 + [calls[f]]
    ensures Owned(emb, calls, covered + {f}, schedule, owner)
    ensures Entered(g.net.edges, calls, covered + {f}, schedule, owner)
  {
    ghost var E := g.net.edges;
    schedule, owner := schedule0, owner0;
    var recursive := HasIndirectRecursion(g, f);
    if recursive {
      for k := 0 to |schedule|
        invariant forall j :: 0 <= j < k ==> schedule[j] != calls[f]
      {
        if schedule[k] == calls[f] {
          ShareEntry(E, emb, calls, covered, schedule, owner, f, k);
          return;
        }
      }
    }
    PushEntry(E, emb, calls, covered, schedule, owner, f);
    schedule, owner := schedule + [calls[f]], owner + [f];
  }

  /** A dependency of the top that is neither covered nor on the stack: there always is one while
      one is not covered. */
  method NextDependency(emb: Embedded, main: nat, w: Stage) returns (dep: nat)
    requires w in Stages(emb.Keys, Dependencies(emb), main) && |w.Q| > 0 && Schedulable(emb, main)
    requires w.Q[|w.Q| - 1] in emb && !(Callees(emb[w.Q[|w.Q| - 1]]) <= w.covered)
    ensures dep !in w.covered && dep !in w.Q && dep in emb && Edge(w.Q[|w.Q| - 1], dep) in Dependencies(emb)
  {
    var top := w.Q[|w.Q| - 1];
    ghost var m :| m in Callees(emb[top]) && m !in w.covered;
    WaitsElsewhere(emb, main, w, m);
    var e :| e in emb[top] && e.snk !in w.covered && e.snk !in w.Q;
    dep := e.snk;
    assert Edge(top, dep) in Dependencies(emb);
  }

  lemma WaitsElsewhere(emb: Embedded, main: nat, w: Stage, m: nat)
    requires w in Stages(emb.Keys, Dependencies(emb), main) && |w.Q| > 0 && Schedulable(emb, main)
    requires w.Q[|w.Q| - 1] in emb && m in Callees(emb[w.Q[|w.Q| - 1]])
    ensures m !in w.Q && exists e :: e in emb[w.Q[|w.Q| - 1]] && e.snk == m
  {
    var top := w.Q[|w.Q| - 1];
    var e :| e in emb[top] && e.snk == m;
    assert Edge(top, m) in Dependencies(emb);
    NeverWaitsForItself(Dependencies(emb), main, w.Q, m);
  }

  /** Covering the top, when all it depends on is covered; functions with call sites are scheduled
      and leave the stack at once. */
  method CoverTop(g: Calls, emb: Embedded, calls: Embedded, main: nat, w: Stage, schedule0: seq<set<Edge>>,
                  ghost owner0: seq<nat>)
    returns (w': Stage, schedule: seq<set<Edge>>, ghost owner: seq<nat>)
    requires IsCallGraph(g) && emb.Keys == g.net.nodes && w in Stages(emb.Keys, Dependencies(emb), main) && |w.Q| > 0
    requires w.Q[|w.Q| - 1] in emb && w.Q[|w.Q| - 1] !in w.covered && Callees(emb[w.Q[|w.Q| - 1]]) <= w.covered
    requires Owned(emb, calls, w.covered, schedule0, owner0)
    requires Entered(g.net.edges, calls, w.covered, schedule0, owner0)
    ensures w' in Stages(emb.Keys, Dependencies(emb), main) && w'.iterations == w.iterations + 1
    ensures w'.covered == w.covered + {w.Q[|w.Q| - 1]}
    ensures w'.Q == if w.Q[|w.Q| - 1] in calls then w.Q[..|w.Q| - 1] else w.Q
    ensures Owned(emb, calls, w'.covered, schedule, owner) && Entered(g.net.edges, calls, w'.covered, schedule, owner)
  {
    var top := w.Q[|w.Q| - 1];
    schedule, owner := schedule0, owner0;
    forall d | d in Dependencies(emb) && d.src == top ensures d.snk in w.covered {
      var e :| e in emb[top] && d == Edge(top, e.snk);
    }
    WalkCovers(emb.Keys, Dependencies(emb), main, w);
    w' := Stage(w.Q, w.covered + {top}, w.iterations + 1);
    if top in calls {
      schedule, owner := PlaceFunction(g, emb, calls, top, w.covered, schedule, owner);
      WalkPops(emb.Keys, Dependencies(emb), main, w');
      w' := w'.(Q := w'.Q[..|w'.Q| - 1]);
    } else {
      NoEntry(g.net.edges, emb, calls, w.covered, schedule, owner, top);
    }
  }

  /** One turn: the next state of the walk, and whether the turn is counted. */
  method Turn(g: Calls, emb: Embedded, calls: Embedded, main: nat, w: Stage, schedule0: seq<set<Edge>>,
              ghost owner0: seq<nat>)
    returns (w': Stage, schedule: seq<set<Edge>>, ghost owner: seq<nat>)
    requires IsCallGraph(g) && emb.Keys == g.net.nodes && Schedulable(emb, main)
    requires w in Stages(emb.Keys, Dependencies(emb), main) && |w.Q| > 0
    requires Owned(emb, calls, w.covered, schedule0, owner0)
    requires Entered(g.net.edges, calls, w.covered, schedule0, owner0)
    ensures w' in Stages(emb.Keys, Dependencies(emb), main)
    ensures Owned(emb, calls, w'.covered, schedule, owner) && Entered(g.net.edges, calls, w'.covered, schedule, owner)
    ensures (w'.iterations == w.iterations && |w'.Q| < |w.Q|) || w'.iterations == w.iterations + 1
  {
    var top := w.Q[|w.Q| - 1];
    assert top in Elems(w.Q);
    schedule, owner := schedule0, owner0;
    if top in w.covered {
      WalkPops(emb.Keys, Dependencies(emb), main, w);
      w' := w.(Q := w.Q[..|w.Q| - 1]);
    } else if Callees(emb[top]) <= w.covered {
      w', schedule, owner := CoverTop(g, emb, calls, main, w, schedule, owner);
    } else {
      var dep := NextDependency(emb, main, w);
      WalkPushes(emb.Keys, Dependencies(emb), main, w, dep);
      w' := Stage(w.Q + [dep], w.covered, w.iterations + 1);
    }
  }

  /** ScheduleInlineTransforms, on any acyclic dependencies. It counts 2n - 1 iterations for the n
      functions main depends on, and throws exactly when these are too many; it covers exactly those
      functions; every entry comes after the functions embedded in its owner; and no function
      owns two entries, nor an indirectly recursive one an entry that is there already. */
  method ScheduleInlineTransforms(g: Calls, main: nat, emb: Embedded, calls: Embedded)
    returns (threw: bool, schedule: seq<set<Edge>>, ghost owner: seq<nat>, ghost covered: set<nat>)
    requires IsCallGraph(g) && emb.Keys == g.net.nodes && Schedulable(emb, main)
    ensures threw <==> 2 * |Needed(emb.Keys, Dependencies(emb), main)| - 1 > MAX_ITERATIONS
    ensures !threw ==> forall f :: f in covered <==> Reach(Dependencies(emb), main, f)
    ensures Owned(emb, calls, covered, schedule, owner) && Entered(g.net.edges, calls, covered, schedule, owner)
    ensures AllKeptOnce(g.net.edges, schedule, owner)
  {
    var w := Stage([main], {}, 0);
    schedule, owner, threw := [], [], false;
    ghost var n := |Needed(emb.Keys, Dependencies(emb), main)|;
    WalkStarts(emb.Keys, Dependencies(emb), main);
    FewIterations(emb.Keys, Dependencies(emb), main, w);
    while w.Q != []
      invariant w in Stages(emb.Keys, Dependencies(emb), main) && w.iterations <= 2 * n - 1
      invariant w.iterations <= MAX_ITERATIONS
      invariant Owned(emb, calls, w.covered, schedule, owner) && Entered(g.net.edges, calls, w.covered, schedule, owner)
      decreases 2 * n - w.iterations, |w.Q|
    {
      w, schedule, owner := Turn(g, emb, calls, main, w, schedule, owner);
      FewIterations(emb.Keys, Dependencies(emb), main, w);
      if w.iterations > MAX_ITERATIONS {
        return true, schedule, owner, w.covered;
      }
    }
    WalkEnds(emb.Keys, Dependencies(emb), main, w);
    AllIterations(emb.Keys, Dependencies(emb), main, w);
    covered := w.covered;
  }

  /** The order as the inliner needs it: when indirectly recursive functions with equal call sites
      also have the same functions embedded, every inlinable function that main depends on has an
      entry after the entries of all inlinable functions embedded in it. */
  lemma ChildrenFirst(E: set<Edge>, emb: Embedded, calls: Embedded, covered: set<nat>, schedule: seq<set<Edge>>,
                      owner: seq<nat>, f: nat)
    requires Owned(emb, calls, covered, schedule, owner) && Entered(E, calls, covered, schedule, owner)
    requires f in covered && f in calls
    requires Indirect(E, f) ==> forall h {:trigger emb[h]} :: h in covered && h in calls && calls[h] == calls[f] ==>
      Callees(emb[h]) == Callees(emb[f])
    ensures exists k :: 0 <= k < |schedule| && schedule[k] == calls[f] && ChildrenPlaced(emb, calls, schedule, k, f)
  {
    var k :| EntryAt(E, calls, schedule, owner, f, k);
    assert ChildrenPlaced(emb, calls, schedule, k, owner[k]);
    assert Callees(emb[owner[k]]) == Callees(emb[f]);
    assert ChildrenPlaced(emb, calls, schedule, k, f);
  }
}
