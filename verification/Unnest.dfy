/** reverseTransform_MLCycle: unwinding virtual nodes until every outermost kernel is a node of
    the graph itself. Only the nodes are modelled. */
module Unnest {
  import opened Traces

  /** A node of the graph: a basic block, a virtual node, or a kernel, with what they were made of. */
  datatype Node = Block(id: nat) | VirtualNode(id: nat, sub: set<Node>) | MLCycle(id: nat, sub: set<Node>)

  // ----- what a node is made of -----

  /** All blocks below a node. */
  function Leaves(n: Node): set<nat> {
    match n
    case Block(id) => {id}
    case VirtualNode(_, sub) => set m, b | m in sub && b in Leaves(m) :: b
    case MLCycle(_, sub) => set m, b | m in sub && b in Leaves(m) :: b
  }

  /** The kernels below a node that lie inside no other kernel. */
  function Outermost(n: Node): set<Node> {
    match n
    case Block(_) => {}
    case VirtualNode(_, sub) => set m, k | m in sub && k in Outermost(m) :: k
    case MLCycle(_, _) => {n}
  }

  function LeavesOf(S: set<Node>): set<nat> {
    set m, b | m in S && b in Leaves(m) :: b
  }

  function OutermostOf(S: set<Node>): set<Node> {
    set m, k | m in S && k in Outermost(m) :: k
  }

  /** Unwinding one virtual node. */
  function Unwind(S: set<Node>, vn: Node): set<Node>
    requires vn.VirtualNode?
  {
    S + vn.sub - {vn}
  }

  // ----- sizes -----

  ghost function Size(n: Node): nat
    decreases n, 2
  {
    match n
    case Block(_) => 1
    case VirtualNode(_, _) => 1 + SizeIn(n, n.sub)
    case MLCycle(_, _) => 1 + SizeIn(n, n.sub)
  }

  ghost function SizeIn(o: Node, s: set<Node>): nat
    requires !o.Block? && s <= o.sub
    decreases o, 1, |s|
  {
    if s == {} then 0
    else
      var x :| x in s;
      Size(x) + SizeIn(o, s - {x})
  }

  ghost function Total(S: set<Node>): nat {
    if S == {} then 0
    else
      var x :| x in S;
      Size(x) + Total(S - {x})
  }

  lemma TotalTake(S: set<Node>, x: Node)
    requires x in S
    ensures Total(S) == Size(x) + Total(S - {x})
  {
    var y :| y in S && Total(S) == Size(y) + Total(S - {y});
    if y != x {
      TotalTake(S - {y}, x);
      TotalTake(S - {x}, y);
      assert S - {y} - {x} == S - {x} - {y};
    }
  }

  lemma SizeInIsTotal(o: Node, s: set<Node>)
    requires !o.Block? && s <= o.sub
    ensures SizeIn(o, s) == Total(s)
    decreases |s|
  {
    if s != {} {
      var x :| x in s && SizeIn(o, s) == Size(x) + SizeIn(o, s - {x});
      SizeInIsTotal(o, s - {x});
      TotalTake(s, x);
    }
  }

  lemma TotalUnion(S: set<Node>, T: set<Node>)
    ensures Total(S + T) <= Total(S) + Total(T)
    decreases T
  {
    if T == {} {
      assert S + T == S;
    } else {
      var x :| x in T;
      TotalTake(T, x);
      TotalUnion(S, T - {x});
      if x in S + (T - {x}) {
        assert S + T == S + (T - {x});
      } else {
        TotalTake(S + T, x);
        assert S + T - {x} == S + (T - {x});
      }
    }
  }

  /** Unwinding makes the whole smaller, whatever the nodes share. */
  lemma UnwindShrinks(S: set<Node>, vn: Node)
    requires vn.VirtualNode? && vn in S
    ensures Total(Unwind(S, vn)) < Total(S)
  {
    NotItsOwnPart(vn);
    assert Unwind(S, vn) == (S - {vn}) + vn.sub;
    TotalUnion(S - {vn}, vn.sub);
    TotalTake(S, vn);
    SizeInIsTotal(vn, vn.sub);
  }

  lemma NotItsOwnPart(vn: Node)
    requires !vn.Block?
    ensures vn !in vn.sub
  {
    if vn in vn.sub {
      PartIsSmaller(vn, vn);
    }
  }

  lemma PartIsSmaller(vn: Node, m: Node)
    requires !vn.Block? && m in vn.sub
    ensures Size(m) < Size(vn)
  {
    SizeInIsTotal(vn, vn.sub);
    TotalTake(vn.sub, m);
  }

  /** Unwinding loses no block and no kernel, and adds none. */
  lemma UnwindConserves(S: set<Node>, vn: Node)
    requires vn.VirtualNode? && vn in S
    ensures LeavesOf(Unwind(S, vn)) == LeavesOf(S)
    ensures OutermostOf(Unwind(S, vn)) == OutermostOf(S)
  {
    NotItsOwnPart(vn);
    var T := Unwind(S, vn);
    forall b | b in LeavesOf(S) ensures b in LeavesOf(T) {
      var m :| m in S && b in Leaves(m);
      if m == vn {
        var p :| p in vn.sub && b in Leaves(p);
        assert p in T;
      } else {
        assert m in T;
      }
    }
    forall b | b in LeavesOf(T) ensures b in LeavesOf(S) {
      var m :| m in T && b in Leaves(m);
      if m !in S {
        assert m in vn.sub && b in Leaves(vn);
      }
    }
    forall k | k in OutermostOf(T) ensures k in OutermostOf(S) {
      var m :| m in T && k in Outermost(m);
      if m !in S {
        assert m in vn.sub && k in Outermost(vn);
      }
    }
    forall k | k in OutermostOf(S) ensures k in OutermostOf(T) {
      var m :| m in S && k in Outermost(m);
      if m == vn {
        var p :| p in vn.sub && k in Outermost(p);
        assert p in T;
      } else {
        assert m in T;
      }
    }
  }

  // ----- the search below one virtual node -----

  ghost function TotalSeq(Q: seq<Node>): nat {
    if Q == [] then 0 else Size(Q[0]) + TotalSeq(Q[1..])
  }

  lemma TotalSeqAppend(Q: seq<Node>, n: Node)
    ensures TotalSeq(Q + [n]) == TotalSeq(Q) + Size(n)
  {
    if Q != [] {
      TotalSeqAppend(Q[1..], n);
      assert (Q + [n])[1..] == Q[1..] + [n];
    }
  }

  /** The virtual nodes still to be looked at hold a kernel exactly when the first one did. */
  ghost predicate Pending(vn: Node, Q: seq<Node>) {
    && (forall q {:trigger q in Q} :: q in Q ==> q.VirtualNode?)
    && (Outermost(vn) != {} <==> exists q :: q in Q && Outermost(q) != {})
  }

  /** One virtual node of the queue: a kernel among its parts ends the search, virtual nodes among
      them are queued. */
  method LookInside(front: Node, Q0: seq<Node>) returns (found: bool, Q: seq<Node>)
    requires front.VirtualNode?
    ensures found ==> Outermost(front) != {}
    ensures !found ==> Q0 <= Q && (forall q :: q in Q <==> q in Q0 || (q in front.sub && q.VirtualNode?))
    ensures !found ==> forall m :: m in front.sub ==> !m.MLCycle?
    ensures !found ==> TotalSeq(Q) <= TotalSeq(Q0) + Total(front.sub)
  {
    Q, found := Q0, false;
    var done: set<Node> := {};
    while done < front.sub
      invariant done <= front.sub && Q0 <= Q && !found
      invariant forall q :: q in Q <==> q in Q0 || (q in done && q.VirtualNode?)
      invariant forall m :: m in done ==> !m.MLCycle?
      invariant TotalSeq(Q) <= TotalSeq(Q0) + Total(done)
      decreases front.sub - done
    {
      var node :| node in front.sub && node !in done;
      TotalTake(done + {node}, node);
      assert done + {node} - {node} == done;
      if node.MLCycle? {
        assert node in Outermost(node) && node in Outermost(front);
        return true, Q;
      }
      if node.VirtualNode? {
        TotalSeqAppend(Q, node);
        Q := Q + [node];
      }
      done := done + {node};
    }
    assert done == front.sub;
  }

  lemma LookFurther(vn: Node, Q: seq<Node>, more: seq<Node>)
    requires |Q| > 0 && Pending(vn, Q) && Q <= more && Q[0].VirtualNode?
    requires forall q :: q in more <==> q in Q || (q in Q[0].sub && q.VirtualNode?)
    requires forall m :: m in Q[0].sub ==> !m.MLCycle?
    ensures Pending(vn, more[1..])
  {
    assert forall q :: q in Q <==> q == Q[0] || q in Q[1..];
    assert forall q :: q in more <==> q == Q[0] || q in more[1..];
    if Outermost(vn) != {} {
      var q :| q in Q && Outermost(q) != {};
      if q == Q[0] {
        var k :| k in Outermost(q);
        var m :| m in q.sub && k in Outermost(m);
        NotItsOwnPart(q);
        assert m in more[1..] && Outermost(m) != {};
      } else {
        var i :| 0 <= i < |Q| && Q[i] == q;
        assert more[i] == q && more[1..][i - 1] == q;
      }
    }
    if q :| q in more[1..] && Outermost(q) != {} {
      if q !in Q {
        var k :| k in Outermost(q);
        assert k in Outermost(Q[0]) && Q[0] in Q;
      }
    }
  }

  /** Is there a kernel below the virtual node? Once one was found anywhere in the sweep, the
      answer is yes for every virtual node after it. */
  method FindKernelBelow(vn: Node, found0: bool) returns (found: bool)
    requires vn.VirtualNode?
    ensures found <==> found0 || Outermost(vn) != {}
  {
    found := found0;
    var Q := [vn];
    while Q != []
      invariant found == found0 && Pending(vn, Q)
      decreases TotalSeq(Q)
    {
      assert Q[0] in Q;
      var inside, more := LookInside(Q[0], Q);
      if inside {
        return true;
      }
      LookFurther(vn, Q, more);
      SizeInIsTotal(Q[0], Q[0].sub);
      assert more[0] == Q[0];
      if found {
        break;
      }
      Q := more[1..];
    }
  }

  // ----- a sweep over the nodes of the graph -----

  /** What a sweep makes of the nodes S, from the i-th node of its list on. */
  ghost function Swept(S: set<Node>, order: seq<Node>, i: nat, found: bool): (set<Node>, bool)
    requires i <= |order|
    decreases |order| - i
  {
    if i == |order| then (S, found)
    else if !order[i].VirtualNode? then Swept(S, order, i + 1, found)
    else if found || Outermost(order[i]) != {} then Swept(Unwind(S, order[i]), order, i + 1, true)
    else Swept(S, order, i + 1, false)
  }

  /** Every node once. */
  ghost predicate Orders(order: seq<Node>, S: set<Node>) {
    (forall n {:trigger n in S} :: n in S <==> n in order) && forall i, j :: 0 <= i < j < |order| ==>
          order[i] != order[j]
  }

  /** The nodes of the list that were not swept yet are still there. */
  ghost predicate Ahead(S: set<Node>, order: seq<Node>, i: nat) {
    && (forall j :: i <= j < |order| ==> order[j] in S)
    && (forall j, k :: 0 <= j < k < |order| ==> order[j] != order[k])
  }

  lemma {:induction false} SweepConserves(S: set<Node>, order: seq<Node>, i: nat, found: bool)
    requires i <= |order| && Ahead(S, order, i)
    ensures var r := Swept(S, order, i, found);
      && LeavesOf(r.0) == LeavesOf(S) && OutermostOf(r.0) == OutermostOf(S)
      && (r.1 && !found ==> Total(r.0) < Total(S)) && Total(r.0) <= Total(S)
      && (found ==> r.1)
      && (!r.1 ==> r.0 == S && forall j :: i <= j < |order| && order[j].VirtualNode? ==> Outermost(order[j]) == {})
    decreases |order| - i
  {
    if i < |order| {
      if order[i].VirtualNode? && (found || Outermost(order[i]) != {}) {
        UnwindConserves(S, order[i]);
        UnwindShrinks(S, order[i]);
        SweepConserves(Unwind(S, order[i]), order, i + 1, true);
      } else {
        SweepConserves(S, order, i + 1, found);
      }
    }
  }

  /** A sweep that has nothing to find changes nothing. */
  lemma {:induction false} SweepLeavesAlone(S: set<Node>, order: seq<Node>, i: nat)
    requires i <= |order|
    ensures (forall j :: i <= j < |order| && order[j].VirtualNode? ==> Outermost(order[j]) == {}) ==>
      Swept(S, order, i, false) == (S, false)
    decreases |order| - i
  {
    if i < |order| {
      SweepLeavesAlone(S, order, i + 1);
    }
  }

  /** One sweep, over a copy of the node list. */
  method Sweep(S: set<Node>, order: seq<Node>) returns (nodes: set<Node>, mlCycleFound: bool)
    ensures (nodes, mlCycleFound) == Swept(S, order, 0, false)
  {
    nodes, mlCycleFound := S, false;
    for i := 0 to |order|
      invariant Swept(nodes, order, i, mlCycleFound) == Swept(S, order, 0, false)
    {
      if !order[i].MLCycle? {
        if order[i].VirtualNode? {
          mlCycleFound := FindKernelBelow(order[i], mlCycleFound);
          if mlCycleFound {
            nodes := nodes + order[i].sub;
            nodes := nodes - {order[i]};
          }
        }
      }
    }
  }

  /** The node list of a set, in some order. */
  method ListNodes(S: set<Node>) returns (order: seq<Node>)
    ensures Orders(order, S)
  {
    order := [];
    var done: set<Node> := {};
    while done < S
      invariant done <= S && Orders(order, done)
      decreases S - done
    {
      var n :| n in S && n !in done;
      order, done := order + [n], done + {n};
    }
    assert done == S;
  }

  ghost predicate SweptSomehow(S: set<Node>, T: set<Node>) {
    exists order :: Orders(order, S) && Swept(S, order, 0, false) == (T, true)
  }

  /** A sweep, in some order, that finds a kernel. */
  ghost function SweepStep(): (set<Node>, set<Node>) -> bool {
    (S: set<Node>, T: set<Node>) => SweptSomehow(S, T)
  }

  lemma OneMoreSweep(s: seq<set<Node>>, S: set<Node>, T: set<Node>, order: seq<Node>, U: set<Node>, found: bool)
    requires Leads(SweepStep(), s, S, T) && Orders(order, T) && Swept(T, order, 0, false) == (U, found)
    ensures found ==> Leads(SweepStep(), s + [U], S, U)
  {
    if found {
      assert SweptSomehow(T, U);
      LeadsOn(SweepStep(), s, S, T, U);
    }
  }

  /** reverseTransform_MLCycle: sweeps until one finds no kernel below a virtual node. It ends on
      every nesting; the kernels among the resulting nodes are exactly the outermost ones of the
      start; the blocks below the nodes are the same; and when there is no kernel below any virtual
      node, nothing is unwound. */
  method ReverseTransform(S: set<Node>) returns (nodes: set<Node>, ghost sweeps: seq<set<Node>>)
    ensures Leads(SweepStep(), sweeps, S, nodes)
    ensures LeavesOf(nodes) == LeavesOf(S)
    ensures (set n | n in nodes && n.MLCycle?) == OutermostOf(S)
    ensures forall n :: n in nodes && n.VirtualNode? ==> Outermost(n) == {}
    ensures (forall n :: n in S && n.VirtualNode? ==> Outermost(n) == {}) ==> nodes == S
  {
    nodes, sweeps := S, [S];
    LeadsOne(SweepStep(), S);
    var mlCycleFound := true;
    while mlCycleFound
      invariant Leads(SweepStep(), sweeps, S, nodes)
      invariant (forall n {:trigger n in S} :: n in S && n.VirtualNode? ==> Outermost(n) == {}) ==> nodes == S
      invariant LeavesOf(nodes) == LeavesOf(S) && OutermostOf(nodes) == OutermostOf(S)
      invariant !mlCycleFound ==> forall n :: n in nodes && n.VirtualNode? ==> Outermost(n) == {}
      decreases Total(nodes), mlCycleFound
    {
      var tmpNodes := ListNodes(nodes);
      SweepConserves(nodes, tmpNodes, 0, false);
      SweepLeavesAlone(nodes, tmpNodes, 0);
      ghost var before := nodes;
      nodes, mlCycleFound := Sweep(nodes, tmpNodes);
      OneMoreSweep(sweeps, S, before, tmpNodes, nodes, mlCycleFound);
      sweeps := if mlCycleFound then sweeps + [nodes] else sweeps;
    }
    KernelsExposed(nodes);
  }

  lemma KernelsExposed(nodes: set<Node>)
    requires forall n :: n in nodes && n.VirtualNode? ==> Outermost(n) == {}
    ensures (set n | n in nodes && n.MLCycle?) == OutermostOf(nodes)
  {
    forall k ensures k in OutermostOf(nodes) <==> k in nodes && k.MLCycle? {
      if k in nodes && k.MLCycle? {
        assert k in Outermost(k);
      }
    }
  }

  /** Found once, found for the rest of the sweep: a virtual node without any kernel below it is
      unwound or not depending on whether it is listed after or before one that has. */
  lemma OrderDecides(a: nat, b: nat, c: nat)
    requires a != b
    ensures var kernel := MLCycle(c, {});
      var has, lacks := VirtualNode(a, {kernel}), VirtualNode(b, {Block(c)});
      && Swept({has, lacks}, [has, lacks], 0, false) == ({kernel, Block(c)}, true)
      && Swept({has, lacks}, [lacks, has], 0, false) == ({kernel, lacks}, true)
      && Swept({kernel, lacks}, [kernel, lacks], 0, false) == ({kernel, lacks}, false)
  {
    var kernel := MLCycle(c, {});
    var has, lacks := VirtualNode(a, {kernel}), VirtualNode(b, {Block(c)});
    assert kernel in Outermost(kernel) && kernel in Outermost(has);
    assert Outermost(lacks) == {};
    assert Unwind({has, lacks}, has) == {kernel, lacks};
    assert Unwind({kernel, lacks}, lacks) == {kernel, Block(c)};
    var first, second, third := [has, lacks], [lacks, has], [kernel, lacks];
    assert Swept({kernel, Block(c)}, first, 2, true) == ({kernel, Block(c)}, true);
    assert Swept({kernel, lacks}, first, 1, true) == ({kernel, Block(c)}, true);
    assert Swept({has, lacks}, second, 1, false) == ({kernel, lacks}, true);
    assert Swept({kernel, lacks}, third, 1, false) == ({kernel, lacks}, false);
  }
}
