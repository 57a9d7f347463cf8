/** Inputs on which Dijkstras goes wrong: an order of ties that is not kept, and a self-edge that is
    not the cheapest way round. */
module SearchInputs {
  import opened Graphs
  import opened Deque
  import opened ShortestPath

  // ----- ties -----

  /** A sort that turns the order of ties round. */
  function InsertAfter(x: Entry, s: seq<Entry>): seq<Entry> {
    if s == [] || x.distance < s[0].distance then [x] + s else [s[0]] + InsertAfter(x, s[1..])
  }

  function Reversing(Q: seq<Entry>): seq<Entry> {
    if Q == [] then [] else InsertAfter(Q[0], Reversing(Q[1..]))
  }

  lemma {:induction false} InsertAfterFacts(x: Entry, s: seq<Entry>)
    requires SortedQ(s)
    ensures SortedQ(InsertAfter(x, s)) && multiset(InsertAfter(x, s)) == multiset{x} + multiset(s)
    ensures |InsertAfter(x, s)| > 0 && (InsertAfter(x, s)[0] == x || (s != [] && InsertAfter(x, s)[0] == s[0]))
  {
    if s == [] || x.distance < s[0].distance {
      assert ([x] + s)[1..] == s;
    } else {
      InsertAfterFacts(x, s[1..]);
      assert ([s[0]] + InsertAfter(x, s[1..]))[1..] == InsertAfter(x, s[1..]);
      assert s == [s[0]] + s[1..];
    }
  }

  lemma {:induction false} TurningFacts(Q: seq<Entry>)
    ensures SortedQ(Reversing(Q)) && multiset(Reversing(Q)) == multiset(Q)
  {
    if Q != [] {
      var rest := Q[1..];
      assert Q == [Q[0]] + rest;
      TurningFacts(rest);
      InsertAfterFacts(Q[0], Reversing(rest));
      assert multiset(Q) == multiset{Q[0]} + multiset(rest);
    }
  }

  lemma TurningSorts()
    ensures Sorts(Reversing)
  {
    forall Q ensures SortedQ(Reversing(Q)) && multiset(Reversing(Q)) == multiset(Q) {
      TurningFacts(Q);
    }
  }

  /** 0 leads to 1 and 2 at the same cost and to 3 at a high one; 2 leads to 3 and 4. */
  const Tied: Costs :=
    map[Edge(0, 1) := 1.0, Edge(0, 2) := 1.0, Edge(0, 3) := 10.0, Edge(2, 3) := 1.0, Edge(2, 4) := 1.0]

  function Reached(d: real, u: nat, color: Color): DNode {
    DNode(Finite(d), Some(u), color)
  }

  function Unseen(): DNode {
    DNode(Infinite, None, White)
  }

  function SourceNode(color: Color): DNode {
    DNode(Finite(0.0), None, color)
  }

  /** The first turn: 0 is scanned. */
  lemma ScanZero()
    ensures var start := Initial({0, 1, 2, 3, 4}, 0);
      var a := Relax(start, [Entry(0, 0.0)], 0, Edge(0, 1), 1.0, Reversing);
      a.1 == [Entry(0, 0.0), Entry(1, 1.0)] &&
      var b := Relax(a.0, a.1, 0, Edge(0, 2), 1.0, Reversing);
      b.1 == [Entry(0, 0.0), Entry(1, 1.0), Entry(2, 1.0)] &&
      var d := Relax(b.0, b.1, 0, Edge(0, 3), 10.0, Reversing);
      && d.1 == [Entry(0, 0.0), Entry(1, 1.0), Entry(2, 1.0), Entry(3, 10.0)]
      && Blacken(d.0, 0) == map[0 := SourceNode(Black), 1 := Reached(1.0, 0, Grey), 2 := Reached(1.0, 0, Grey),
                                3 := Reached(10.0, 0, Grey), 4 := Unseen()]
  {
  }

  lemma InsertIntoOne(x: Entry, y: Entry)
    ensures InsertAfter(x, [y]) == if x.distance < y.distance then [x, y] else [y, x]
  {
    assert [y][1..] == [] && [x] + [y] == [x, y] && [y] + [x] == [y, x];
    assert InsertAfter(x, []) == [x] + [] == [x];
  }

  lemma InsertIntoTwo(x: Entry, y: Entry, z: Entry)
    requires y.distance <= x.distance < z.distance
    ensures InsertAfter(x, [y, z]) == [y, x, z]
  {
    InsertIntoOne(x, z);
    assert [y, z][1..] == [z] && [y] + [x, z] == [y, x, z];
  }

  lemma TurnTwo(x: Entry, y: Entry)
    requires x.distance <= y.distance
    ensures Reversing([x, y]) == if x.distance == y.distance then [y, x] else [x, y]
  {
    assert [x, y][1..] == [y] && [y][1..] == [];
    assert Reversing([]) == [] && Reversing([y]) == [y] + [] == [y];
    InsertIntoOne(x, y);
  }

  lemma TurnThree(x: Entry, y: Entry, z: Entry)
    requires x.distance == y.distance < z.distance
    ensures Reversing([x, y, z]) == [y, x, z]
  {
    assert [x, y, z][1..] == [y, z];
    TurnTwo(y, z);
    InsertIntoTwo(x, y, z);
  }

  /** The second turn: sorting puts 2 in front, improving 3 puts 1 in front, and 4 gets 1 for its
      predecessor although it is a neighbour of 2. */
  lemma ScanTwo()
    ensures var D := map[0 := SourceNode(Black), 1 := Reached(1.0, 0, Grey), 2 := Reached(1.0, 0, Grey),
                         3 := Reached(10.0, 0, Grey), 4 := Unseen()];
      Reversing([Entry(1, 1.0), Entry(2, 1.0), Entry(3, 10.0)]) == [Entry(2, 1.0), Entry(1, 1.0), Entry(3, 10.0)] &&
      var a := Relax(D, [Entry(2, 1.0), Entry(1, 1.0), Entry(3, 10.0)], 0, Edge(2, 3), 1.0, Reversing);
      a.1 == [Entry(1, 1.0), Entry(2, 1.0), Entry(3, 2.0)] &&
      var b := Relax(a.0, a.1, 0, Edge(2, 4), 1.0, Reversing);
      && b.1 == [Entry(1, 1.0), Entry(2, 1.0), Entry(3, 2.0), Entry(4, 2.0)]
      && Blacken(b.0, 1) == map[0 := SourceNode(Black), 1 := Reached(1.0, 0, Black), 2 := Reached(1.0, 0, Grey),
                                3 := Reached(2.0, 2, Grey), 4 := Reached(2.0, 1, Grey)]
  {
    TurnThree(Entry(1, 1.0), Entry(2, 1.0), Entry(3, 10.0));
    TurnThree(Entry(2, 1.0), Entry(1, 1.0), Entry(3, 2.0));
    var Q := [Entry(2, 1.0), Entry(1, 1.0), Entry(3, 10.0)];
    assert Q[1..] == [Entry(1, 1.0), Entry(3, 10.0)] && Q[1..][1..] == [Entry(3, 10.0)];
    assert Decrease([Entry(3, 10.0)], 3, 2.0) == [Entry(3, 2.0)];
    assert Decrease(Q[1..], 3, 2.0) == [Entry(1, 1.0), Entry(3, 2.0)];
    assert Decrease(Q, 3, 2.0) == [Entry(2, 1.0), Entry(1, 1.0), Entry(3, 2.0)];
  }

  lemma TurnTied(x: Entry, y: Entry, z: Entry)
    requires x.distance < y.distance == z.distance
    ensures Reversing([x, y, z]) == [x, z, y]
  {
    assert [x, y, z][1..] == [y, z];
    TurnTwo(y, z);
    assert [x] + [z, y] == [x, z, y];
  }

  /** The third turn: 2, scanned again, improves nothing; 3 and 4 have no neighbours. So 4 keeps the
      predecessor 1 and 1 the predecessor 0: the walk back collects 0 and 1. */
  lemma ScanTwoAgain()
    ensures var D := map[0 := SourceNode(Black), 1 := Reached(1.0, 0, Black), 2 := Reached(1.0, 0, Grey),
                         3 := Reached(2.0, 2, Grey), 4 := Reached(2.0, 1, Grey)];
      var Q := [Entry(2, 1.0), Entry(4, 2.0), Entry(3, 2.0)];
      && Reversing([Entry(2, 1.0), Entry(3, 2.0), Entry(4, 2.0)]) == Q
      && Relax(D, Q, 0, Edge(2, 3), 1.0, Reversing) == (D, Q)
      && Relax(D, Q, 0, Edge(2, 4), 1.0, Reversing) == (D, Q)
      && D[4].predecessor == Some(1) && D[1].predecessor == Some(0)
  {
    TurnTied(Entry(2, 1.0), Entry(3, 2.0), Entry(4, 2.0));
  }

  /** But every path to 4 leads through 2. */
  lemma OnlyThroughTwo(p: seq<nat>)
    requires Walk(Tied.Keys, 0, 4, p)
    ensures 2 in p && Edge(1, 4) !in Tied
  {
    assert Edge(p[|p| - 2], p[|p| - 2 + 1]) in Tied.Keys;
  }

  // ----- a self-edge in the way -----

  /** A costly self-edge beside a cheap way round. */
  const Detour: Costs := map[Edge(0, 0) := 5.0, Edge(0, 1) := 1.0, Edge(1, 0) := 1.0]

  /** The self-edge, met first, makes the way round look dearer than itself: the cycle found for 0 is
      0 alone, at cost 5, although the way round costs 2. This is so for every sort. */
  lemma DetourIsMissed(sort: Sorting)
    requires Sorts(sort)
    ensures var start := Initial({0, 1}, 0);
      var a := Relax(start, [Entry(0, 0.0)], 0, Edge(0, 0), 5.0, sort);
      a.1 == [Entry(0, 0.0)] &&
      var b := Relax(a.0, a.1, 0, Edge(0, 1), 1.0, sort);
      b.1 == [Entry(0, 0.0), Entry(1, 6.0)] &&
      var D := Blacken(b.0, 0);
      && sort([Entry(1, 6.0)]) == [Entry(1, 6.0)]
      && Relax(D, [Entry(1, 6.0)], 0, Edge(1, 0), 1.0, sort) == (D, [Entry(1, 6.0)])
      && D[0].predecessor == Some(0) && D[0].distance == Finite(5.0)
    ensures Walk(Detour.Keys, 0, 0, [0, 1, 0]) && WalkCost(Detour, [0, 1, 0]) == 2.0
  {
    OneSorted(sort, Entry(1, 6.0));
    CostSnoc(Detour.Keys, Detour, [0], 1);
    CostSnoc(Detour.Keys, Detour, [0, 1], 0);
    assert [0] + [1] == [0, 1] && [0, 1] + [0] == [0, 1, 0];
  }
}
