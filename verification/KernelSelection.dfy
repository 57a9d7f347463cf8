/** The selection pass of FindMLCycles: which of the kernels found in one iteration are kept. */
module KernelSelection {

  /** What the pass looks at: the nodes of a kernel, its number of entrances and exits, and its
      path probability. Kernels are indexed in the order of their ids. */
  datatype Candidate = Candidate(nodes: set<nat>, score: int, probability: real)

  const INT_MAX: int := 0x7FFF_FFFF

  /** They share a node. */
  ghost predicate Overlap(a: Candidate, b: Candidate) {
    exists n :: n in a.nodes && n in b.nodes
  }

  /** Compare: the nodes two kernels share. */
  method Compare(a: Candidate, b: Candidate) returns (shared: set<nat>)
    ensures shared != {} <==> Overlap(a, b)
  {
    shared := a.nodes * b.nodes;
    forall n | n in a.nodes && n in b.nodes ensures n in shared {
    }
    if shared != {} {
      ghost var n :| n in shared;
    }
  }

  /** The least number of entrances and exits, and the first kernel that has it. */
  method FindWinner(K: seq<Candidate>) returns (minScore: int, winner: int)
    requires forall k :: 0 <= k < |K| ==> K[k].score < INT_MAX
    ensures K == [] <==> winner == -1
    ensures K != [] ==> 0 <= winner < |K| && K[winner].score == minScore
    ensures forall k :: 0 <= k < |K| ==> minScore <= K[k].score
    ensures forall k :: 0 <= k < winner ==> minScore < K[k].score
  {
    minScore, winner := INT_MAX, -1;
    for i := 0 to |K|
      invariant i == 0 <==> winner == -1
      invariant i == 0 ==> minScore == INT_MAX
      invariant i > 0 ==> 0 <= winner < i && K[winner].score == minScore
      invariant forall k :: 0 <= k < i ==> minScore <= K[k].score
      invariant forall k :: 0 <= k < winner ==> minScore < K[k].score
    {
      if K[i].score < minScore {
        minScore, winner := K[i].score, i;
      }
    }
  }

  /** The comparison that decides a tie is always true once the first one failed: the kernel
      that compares itself with another never loses. */
  lemma NeverLoses(a: real, b: real)
    ensures a > b || a - b < 0.001
  {
  }

  /** Why a kernel may be dropped: too many ways in and out, or it shares a node with an earlier
      kernel that stays, one of the first i. */
  ghost predicate Excused(K: seq<Candidate>, min: int, removed: set<int>, i: int, k: int)
    requires 0 <= k < |K|
  {
    K[k].score > min || exists j :: 0 <= j < k && j < i && j !in removed && K[j].score == min && Overlap(K[j], K[k])
  }

  ghost predicate AllExcused(K: seq<Candidate>, min: int, removed: set<int>, i: int) {
    forall k {:trigger k in removed} :: k in removed ==> 0 <= k < |K| && Excused(K, min, removed, i, k)
  }

  /** The first i kernels have had their turn: those that stay have the least score, and share no
      node with any other that is still there. */
  ghost predicate Judged(K: seq<Candidate>, min: int, removed: set<int>, i: int) {
    && (forall k :: 0 <= k < i && k < |K| && k !in removed ==> K[k].score == min)
    && (forall j, k {:trigger Overlap(K[j], K[k])} ::
          0 <= j < i && j < |K| && 0 <= k < |K| && j != k && j !in removed && k !in removed ==> !Overlap(K[j], K[k]))
  }

  ghost predicate Winning(K: seq<Candidate>, min: int, winner: int) {
    && 0 <= winner < |K| && K[winner].score == min
    && (forall k :: 0 <= k < |K| ==> min <= K[k].score)
    && (forall k :: 0 <= k < winner ==> min < K[k].score)
  }

  /** A kernel compares itself with all others that are still there, and drops those it shares a
      node with. */
  method CompareWithOthers(K: seq<Candidate>, kern: int, ghost min: int, ghost winner: int, toRemove0: set<int>)
    returns (toRemove: set<int>)
    requires Winning(K, min, winner) && 0 <= kern < |K| && kern !in toRemove0 && K[kern].score == min
    requires AllExcused(K, min, toRemove0, kern) && Judged(K, min, toRemove0, kern) && winner !in toRemove0
    ensures AllExcused(K, min, toRemove, kern + 1) && Judged(K, min, toRemove, kern + 1) && winner !in toRemove
  {
    toRemove := toRemove0;
    for compare := 0 to |K|
      invariant kern !in toRemove && winner !in toRemove
      invariant AllExcused(K, min, toRemove, kern + 1) && Judged(K, min, toRemove, kern)
      invariant forall k :: 0 <= k < compare && k != kern && k !in toRemove ==> !Overlap(K[kern], K[k])
    {
      if kern == compare || compare in toRemove {
        continue;
      }
      var shared := Compare(K[kern], K[compare]);
      if shared != {} {
        NeverLoses(K[kern].probability, K[compare].probability);
        EarlierStay(K, min, winner, toRemove, kern, compare);
        DropLater(K, min, toRemove, kern, compare);
        if K[kern].probability > K[compare].probability {
          toRemove := toRemove + {compare};
        } else if K[kern].probability - K[compare].probability < 0.001 {
          toRemove := toRemove + {compare};
        } else {
          toRemove := toRemove + {kern};
        }
      }
    }
    forall k | 0 <= k < |K| && k != kern && k !in toRemove ensures !Overlap(K[k], K[kern]) {
      assert !Overlap(K[kern], K[k]);
    }
  }

  /** Only later kernels, and never the winner, share a node with one whose turn it is. */
  lemma EarlierStay(K: seq<Candidate>, min: int, winner: int, removed: set<int>, kern: int, compare: int)
    requires Winning(K, min, winner) && 0 <= kern < |K| && 0 <= compare < |K| && kern != compare && K[kern].score == min
    requires kern !in removed && compare !in removed && Overlap(K[kern], K[compare]) && Judged(K, min, removed, kern)
    ensures kern < compare && compare != winner
  {
    assert Overlap(K[compare], K[kern]);
  }

  lemma DropLater(K: seq<Candidate>, min: int, removed: set<int>, kern: int, compare: int)
    requires 0 <= kern < compare < |K| && K[kern].score == min && kern !in removed && Overlap(K[kern], K[compare])
    requires AllExcused(K, min, removed, kern + 1) && Judged(K, min, removed, kern)
    ensures AllExcused(K, min, removed + {compare}, kern + 1) && Judged(K, min, removed + {compare}, kern)
  {
    var after := removed + {compare};
    forall k | k in after ensures 0 <= k < |K| && Excused(K, min, after, kern + 1, k) {
      if k == compare {
        assert Overlap(K[kern], K[k]);
      } else if K[k].score <= min {
        var j :| 0 <= j < k && j < kern + 1 && j !in removed && K[j].score == min && Overlap(K[j], K[k]);
        assert j !in after;
      }
    }
  }

  /** One kernel's turn. */
  method Judge(K: seq<Candidate>, kern: int, minScore: int, winner: int, toRemove0: set<int>)
    returns (toRemove: set<int>)
    requires Winning(K, minScore, winner) && 0 <= kern < |K|
    requires AllExcused(K, minScore, toRemove0, kern) && Judged(K, minScore, toRemove0, kern) && winner !in toRemove0
    ensures AllExcused(K, minScore, toRemove, kern + 1) && Judged(K, minScore, toRemove, kern + 1)
    ensures winner !in toRemove
  {
    toRemove := toRemove0;
    if kern in toRemove {
      MoreExcused(K, minScore, toRemove, kern);
    } else if K[kern].score > minScore && winner !in toRemove {
      toRemove := toRemove + {kern};
      DropHigh(K, minScore, toRemove0, kern);
    } else {
      toRemove := CompareWithOthers(K, kern, minScore, winner, toRemove);
    }
  }

  lemma MoreExcused(K: seq<Candidate>, min: int, removed: set<int>, i: int)
    requires AllExcused(K, min, removed, i)
    ensures AllExcused(K, min, removed, i + 1)
  {
    forall k | k in removed ensures 0 <= k < |K| && Excused(K, min, removed, i + 1, k) {
      if K[k].score <= min {
        var j :| 0 <= j < k && j < i && j !in removed && K[j].score == min && Overlap(K[j], K[k]);
        assert j < i + 1;
      }
    }
  }

  lemma DropHigh(K: seq<Candidate>, min: int, removed: set<int>, kern: int)
    requires 0 <= kern < |K| && K[kern].score > min && AllExcused(K, min, removed, kern)
    ensures AllExcused(K, min, removed + {kern}, kern + 1)
  {
    var after := removed + {kern};
    forall k | k in after ensures 0 <= k < |K| && Excused(K, min, after, kern + 1, k) {
      if k != kern && K[k].score <= min {
        var j :| 0 <= j < k && j < kern && j !in removed && K[j].score == min && Overlap(K[j], K[k]);
        assert j !in after;
      }
    }
  }

  /** What the pass keeps. */
  ghost predicate Selection(K: seq<Candidate>, min: int, kept: set<int>) {
    && (forall k :: k in kept ==> 0 <= k < |K| && K[k].score == min)
    && (forall j, k {:trigger j in kept, k in kept} :: j in kept && k in kept && j != k ==> !Overlap(K[j], K[k]))
    && (forall k :: 0 <= k < |K| && K[k].score == min && k !in kept ==>
          exists j :: j in kept && j < k && Overlap(K[j], K[k]))
  }

  /** There is just one selection: the order of the ids alone decides, not the probabilities. */
  lemma SelectionIsUnique(K: seq<Candidate>, min: int, a: set<int>, b: set<int>)
    requires Selection(K, min, a) && Selection(K, min, b)
    ensures a == b
  {
    SameUpTo(K, min, a, b, |K|);
    forall k ensures k in a <==> k in b {
    }
  }

  lemma {:induction false} SameUpTo(K: seq<Candidate>, min: int, a: set<int>, b: set<int>, n: nat)
    requires Selection(K, min, a) && Selection(K, min, b) && n <= |K|
    ensures forall k :: 0 <= k < n ==> (k in a <==> k in b)
  {
    if n > 0 {
      SameUpTo(K, min, a, b, n - 1);
    }
  }

  function Upto(n: nat): (r: set<int>)
    ensures forall k :: k in r <==> 0 <= k < n
    ensures |r| == n
  {
    if n == 0 then {} else Upto(n - 1) + {n - 1}
  }

  /** A kernel whose probability is below that of all before it. */
  predicate RecordLow(K: seq<Candidate>, k: int) {
    0 <= k < |K| && forall j :: 0 <= j < k ==> K[k].probability < K[j].probability
  }

  /** The selection pass. The fallback, for when every kernel was beaten by another, only comes
      up when there were none: then it does nothing. */
  method SelectKernels(K: seq<Candidate>) returns (kept: set<int>, ghost minScore: int, ghost fellBack: bool)
    requires forall k :: 0 <= k < |K| ==> K[k].score < INT_MAX
    ensures Selection(K, minScore, kept)
    ensures forall k :: 0 <= k < |K| ==> minScore <= K[k].score
    ensures K == [] || exists k :: 0 <= k < |K| && K[k].score == minScore
    ensures kept == {} <==> K == []
    ensures fellBack <==> K == []
  {
    var min, winner := FindWinner(K);
    minScore := min;
    var toRemove: set<int> := {};
    for kern := 0 to |K|
      invariant K != [] ==> AllExcused(K, min, toRemove, kern) && Judged(K, min, toRemove, kern) && winner !in toRemove
      invariant K == [] ==> toRemove == {}
    {
      toRemove := Judge(K, kern, min, winner, toRemove);
    }
    RemovedCount(K, toRemove);
    fellBack := |toRemove| == |K|;
    if |toRemove| == |K| {
      toRemove := Fallback(K);
    }
    kept := Upto(|K|) - toRemove;
    if K != [] {
      JudgedIsSelection(K, min, toRemove);
      assert winner in kept;
    }
  }

  /** The fallback is meant to keep a kernel of least probability. It drops the best kernel so
      far whenever the next one is looked at, better or not: all record lows but the last kernel. */
  method Fallback(K: seq<Candidate>) returns (toRemove: set<int>)
    ensures forall k :: k in toRemove <==> k < |K| - 1 && RecordLow(K, k)
  {
    toRemove := {};
    var winner := -1;
    for kern := 0 to |K|
      invariant kern == 0 ==> toRemove == {} && winner == -1
      invariant kern > 0 ==> winner < kern && RecordLow(K, winner)
      invariant forall k :: winner < k < kern ==> !RecordLow(K, k)
      invariant kern > 0 ==> forall j :: 0 <= j < kern ==> K[winner].probability <= K[j].probability
      invariant forall k :: k in toRemove <==> k < kern - 1 && RecordLow(K, k)
    {
      if winner == -1 || K[kern].probability < K[winner].probability {
        if winner != -1 {
          toRemove := toRemove + {winner};
        }
        winner := kern;
      } else {
        toRemove := toRemove + {winner};
      }
    }
  }

  lemma RemovedCount(K: seq<Candidate>, removed: set<int>)
    requires removed <= Upto(|K|)
    ensures |removed| == |K| <==> removed == Upto(|K|)
  {
    var rest := Upto(|K|) - removed;
    assert Upto(|K|) == removed + rest;
    assert |K| == |removed| + |rest|;
  }

  lemma JudgedIsSelection(K: seq<Candidate>, min: int, removed: set<int>)
    requires AllExcused(K, min, removed, |K|) && Judged(K, min, removed, |K|)
    ensures Selection(K, min, Upto(|K|) - removed)
  {
    var kept := Upto(|K|) - removed;
    forall k | 0 <= k < |K| && K[k].score == min && k !in kept
      ensures exists j :: j in kept && j < k && Overlap(K[j], K[k])
    {
      assert k in removed;
      var j :| 0 <= j < k && j < |K| && j !in removed && K[j].score == min && Overlap(K[j], K[k]);
      assert j in kept;
    }
  }
}
