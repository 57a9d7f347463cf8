/** Sequences of states, each a step on from the one before. */
module Traces {

  ghost predicate StepAt<T>(step: (T, T) -> bool, s: seq<T>, i: int) {
    0 <= i < |s| - 1 ==> step(s[i], s[i + 1])
  }

  ghost predicate Trace<T>(step: (T, T) -> bool, s: seq<T>) {
    |s| > 0 && forall i {:trigger StepAt(step, s, i)} :: StepAt(step, s, i)
  }

  /** From one state to another. */
  ghost predicate Leads<T>(step: (T, T) -> bool, s: seq<T>, a: T, b: T) {
    Trace(step, s) && s[0] == a && s[|s| - 1] == b
  }

  /** P held of one of the states. */
  ghost predicate Once<T>(s: seq<T>, P: T -> bool) {
    exists i :: 0 <= i < |s| && P(s[i])
  }

  lemma LeadsOne<T>(step: (T, T) -> bool, a: T)
    ensures Leads(step, [a], a, a)
  {
  }

  lemma LeadsOn<T>(step: (T, T) -> bool, s: seq<T>, a: T, b: T, c: T)
    requires Leads(step, s, a, b) && step(b, c)
    ensures Leads(step, s + [c], a, c)
  {
    forall i ensures StepAt(step, s + [c], i) {
      assert StepAt(step, s, i);
    }
  }

  lemma LeadsOnTo<T>(step: (T, T) -> bool, s: seq<T>, t: seq<T>, a: T, b: T, c: T)
    requires Leads(step, s, a, b) && Leads(step, t, b, c)
    ensures Leads(step, s + t[1..], a, c)
  {
    var r := s + t[1..];
    forall i ensures StepAt(step, r, i) {
      if 0 <= i < |s| - 1 {
        assert StepAt(step, s, i);
      } else if |s| - 1 <= i < |r| - 1 {
        assert StepAt(step, t, i - (|s| - 1));
        assert r[i] == t[i - (|s| - 1)] && r[i + 1] == t[i - (|s| - 1) + 1];
      }
    }
  }

  lemma LeadsAs<T(!new)>(step: (T, T) -> bool, other: (T, T) -> bool, s: seq<T>, a: T, b: T)
    requires Leads(step, s, a, b) && forall x, y :: step(x, y) ==> other(x, y)
    ensures Leads(other, s, a, b)
  {
    forall i ensures StepAt(other, s, i) {
      assert StepAt(step, s, i);
    }
  }

  /** The same states, seen as others. */
  lemma LeadsSeen<T(!new), U>(step: (T, T) -> bool, other: (U, U) -> bool, s: seq<T>, a: T, b: T, see: T -> U)
    returns (t: seq<U>)
    requires Leads(step, s, a, b) && forall x, y :: step(x, y) ==> other(see(x), see(y))
    ensures Leads(other, t, see(a), see(b))
  {
    t := seq(|s|, i requires 0 <= i < |s| => see(s[i]));
    forall i ensures StepAt(other, t, i) {
      assert StepAt(step, s, i);
    }
  }

  lemma OnceStill<T>(s: seq<T>, P: T -> bool, c: T)
    requires Once(s, P) || P(c)
    ensures Once(s + [c], P)
  {
    var s' := s + [c];
    if Once(s, P) {
      var i :| 0 <= i < |s| && P(s[i]);
      assert s'[i] == s[i];
    } else {
      assert s'[|s|] == c;
    }
  }

  lemma OnceLast<T>(s: seq<T>, P: T -> bool)
    requires |s| > 0 && P(s[|s| - 1])
    ensures Once(s, P)
  {
  }

  lemma OnceOfOne<T>(a: T, P: T -> bool)
    requires Once([a], P)
    ensures P(a)
  {
  }

  /** What holds at the start and is carried over every step holds all along. */
  lemma {:induction false} TraceKeeps<T(!new)>(step: (T, T) -> bool, s: seq<T>, P: T -> bool, k: nat)
    requires Trace(step, s) && k < |s| && P(s[0]) && forall a, b :: P(a) && step(a, b) ==> P(b)
    ensures P(s[k])
  {
    if k > 0 {
      TraceKeeps(step, s, P, k - 1);
      assert StepAt(step, s, k - 1);
    }
  }

  // ----- steps that are known by what they take -----

  ghost predicate TakesAt<T, L>(step: (T, L, T) -> bool, taken: seq<L>, s: seq<T>, i: int) {
    0 <= i < |taken| && i + 1 < |s| ==> step(s[i], taken[i], s[i + 1])
  }

  ghost predicate TakesAlong<T, L>(step: (T, L, T) -> bool, taken: seq<L>, s: seq<T>, a: T, b: T) {
    && |s| == |taken| + 1 && s[0] == a && s[|taken|] == b
    && forall i {:trigger TakesAt(step, taken, s, i)} :: TakesAt(step, taken, s, i)
  }

  /** b comes from a by one step for each of these, in order. */
  ghost predicate By<T(!new), L>(step: (T, L, T) -> bool, taken: seq<L>, a: T, b: T) {
    exists s :: TakesAlong(step, taken, s, a, b)
  }

  lemma ByNone<T(!new), L>(step: (T, L, T) -> bool, a: T)
    ensures By(step, [], a, a)
  {
    assert TakesAlong(step, [], [a], a, a);
  }

  lemma ByNothing<T(!new), L>(step: (T, L, T) -> bool, taken: seq<L>, a: T, b: T)
    requires By(step, taken, a, b) && taken == []
    ensures a == b
  {
    var s :| TakesAlong(step, taken, s, a, b);
  }

  lemma ByOneMore<T(!new), L>(step: (T, L, T) -> bool, taken: seq<L>, a: T, b: T, x: L, c: T)
    requires By(step, taken, a, b) && step(b, x, c)
    ensures By(step, taken + [x], a, c)
  {
    var s :| TakesAlong(step, taken, s, a, b);
    var s', taken' := s + [c], taken + [x];
    forall i ensures TakesAt(step, taken', s', i) {
      assert TakesAt(step, taken, s, i);
    }
    assert TakesAlong(step, taken', s', a, c);
  }

  /** The last step. */
  lemma ByLast<T(!new), L>(step: (T, L, T) -> bool, taken: seq<L>, a: T, b: T) returns (x: T)
    requires By(step, taken, a, b) && |taken| > 0
    ensures By(step, taken[..|taken| - 1], a, x) && step(x, taken[|taken| - 1], b)
  {
    var s :| TakesAlong(step, taken, s, a, b);
    var n := |taken| - 1;
    assert TakesAt(step, taken, s, n);
    x := s[n];
    forall i ensures TakesAt(step, taken[..n], s[..|taken|], i) {
      assert TakesAt(step, taken, s, i);
    }
    assert TakesAlong(step, taken[..n], s[..|taken|], a, x);
  }

  /** The step for the k-th. */
  lemma {:induction false} ByAt<T(!new), L>(step: (T, L, T) -> bool, taken: seq<L>, a: T, b: T, k: nat)
    returns (x: T, y: T)
    requires By(step, taken, a, b) && k < |taken|
    ensures By(step, taken[..k], a, x) && step(x, taken[k], y)
    decreases |taken|
  {
    x := ByLast(step, taken, a, b);
    y := b;
    if k < |taken| - 1 {
      var before := taken[..|taken| - 1];
      x, y := ByAt(step, before, a, x, k);
      assert before[..k] == taken[..k];
    }
  }

  /** What holds at the start and is carried over every step holds at the end. */
  lemma {:induction false} ByKeeps<T(!new), L(!new)>(step: (T, L, T) -> bool, taken: seq<L>, a: T, b: T, P: T -> bool)
    requires By(step, taken, a, b) && P(a)
    requires forall x, l, y :: P(x) && step(x, l, y) ==> P(y)
    ensures P(b)
    decreases |taken|
  {
    if taken != [] {
      var x := ByLast(step, taken, a, b);
      ByKeeps(step, taken[..|taken| - 1], a, x, P);
    } else {
      ByNothing(step, taken, a, b);
    }
  }
}
