/** Facts about finite sets that the other modules use. */
module Sets {

  lemma Only<T>(s: set<T>, x: T)
    requires x in s && |s| == 1
    ensures s == {x}
  {
    var d := s - {x};
    assert s == d + {x};
    assert |s| == |d| + 1;
  }

  lemma AtMostOne<T>(s: set<T>, x: T, y: T)
    requires |s| <= 1 && x in s && y in s
    ensures x == y
  {
    var rest := s - {x};
    assert s == {x} + rest;
    assert |s| == 1 + |rest|;
    assert y !in rest;
  }

  lemma SubsetSize<T>(a: set<T>, b: set<T>)
    requires a <= b
    ensures |a| <= |b|
  {
    assert b == a + (b - a);
  }

  lemma SameSize<T>(a: set<T>, b: set<T>)
    requires a <= b && |a| >= |b|
    ensures a == b
  {
    var d := b - a;
    assert b == a + d;
    assert |b| == |a| + |d|;
  }

  /** What a queue holds. */
  function Elems(Q: seq<nat>): set<nat> {
    set m | m in Q
  }

  lemma ElemsTake(Q: seq<nat>)
    requires |Q| > 0
    ensures Elems(Q) == {Q[0]} + Elems(Q[1..])
  {
    assert Q == [Q[0]] + Q[1..];
  }
}
