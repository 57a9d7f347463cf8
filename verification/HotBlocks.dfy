/** The hot-block selection of DetectHotCode: the most frequent blocks, until they account for
    enough of the whole frequency. Shares are exact. */
module HotBlocks {

  const THRESHOLD_MAX_COLD: nat := 256
  const THRESHOLD_MIN_HOT: nat := 16

  datatype Block = Block(id: nat, freq: nat)

  type Frequencies = map<nat, nat>

  // ----- sums -----

  ghost function SumOf(S: set<nat>, f: Frequencies): nat
    requires S <= f.Keys
  {
    if S == {} then 0
    else
      var x :| x in S;
      f[x] + SumOf(S - {x}, f)
  }

  lemma SumTake(S: set<nat>, f: Frequencies, x: nat)
    requires S <= f.Keys && x in S
    ensures SumOf(S, f) == f[x] + SumOf(S - {x}, f)
  {
    var y :| y in S && SumOf(S, f) == f[y] + SumOf(S - {y}, f);
    if y != x {
      SumTake(S - {y}, f, x);
      SumTake(S - {x}, f, y);
      assert S - {y} - {x} == S - {x} - {y};
    }
  }

  function Prefix(s: seq<Block>, k: nat): nat
    requires k <= |s|
  {
    if k == 0 then 0 else Prefix(s, k - 1) + s[k - 1].freq
  }

  function Ids(s: seq<Block>): set<nat> {
    if s == [] then {} else Ids(s[..|s| - 1]) + {s[|s| - 1].id}
  }

  ghost predicate Has(s: seq<Block>, x: nat) {
    exists i :: 0 <= i < |s| && s[i].id == x
  }

  lemma {:induction false} IdsAre(s: seq<Block>, x: nat)
    ensures x in Ids(s) <==> Has(s, x)
  {
    if s != [] {
      var front := s[..|s| - 1];
      IdsAre(front, x);
      if Has(s, x) {
        var i :| 0 <= i < |s| && s[i].id == x;
        assert i < |front| ==> front[i].id == x;
      }
      if i :| 0 <= i < |front| && front[i].id == x {
        assert s[i].id == x;
      }
    }
  }

  lemma IdsTake(s: seq<Block>, k: nat)
    requires 0 < k <= |s|
    ensures Ids(s[..k]) == Ids(s[..k - 1]) + {s[k - 1].id}
  {
    assert s[..k][..k - 1] == s[..k - 1];
  }

  // ----- the sorted list -----

  ghost predicate Entries(s: seq<Block>, f: Frequencies) {
    && (forall i {:trigger s[i]} :: 0 <= i < |s| ==> s[i].id in f && s[i].freq == f[s[i].id])
    && (forall i, j :: 0 <= i < j < |s| ==> s[i].id != s[j].id)
  }

  /** Every block once, with its frequency. */
  ghost predicate Lists(s: seq<Block>, f: Frequencies) {
    Ids(s) == f.Keys && Entries(s, f)
  }

  ghost predicate Descending(s: seq<Block>) {
    forall i, j :: 0 <= i < j < |s| ==> s[i].freq >= s[j].freq
  }

  /** The vector of all blocks, sorted as it grows: blocks of equal frequency in any order. */
  method SortedBlocks(f: Frequencies) returns (s: seq<Block>)
    ensures Lists(s, f) && Descending(s)
  {
    s := [];
    var done: set<nat> := {};
    while done < f.Keys
      invariant done <= f.Keys && Descending(s) && Ids(s) == done && Entries(s, f)
      decreases f.Keys - done
    {
      var id :| id in f.Keys && id !in done;
      var k := 0;
      while k < |s| && s[k].freq >= f[id]
        invariant k <= |s| && forall i :: 0 <= i < k ==> s[i].freq >= f[id]
      {
        k := k + 1;
      }
      InsertedIds(s, k, Block(id, f[id]));
      InsertedEntries(s, k, f, id);
      s := Inserted(s, k, Block(id, f[id]));
      done := done + {id};
    }
    assert done == f.Keys;
  }

  function Inserted(s: seq<Block>, k: nat, b: Block): (t: seq<Block>)
    requires k <= |s|
    ensures |t| == |s| + 1 && t[k] == b
    ensures forall i {:trigger t[i]} :: 0 <= i < k ==> t[i] == s[i]
    ensures forall i {:trigger t[i]} :: k < i <= |s| ==> t[i] == s[i - 1]
  {
    s[..k] + [b] + s[k..]
  }

  lemma InsertedIds(s: seq<Block>, k: nat, b: Block)
    requires k <= |s|
    ensures Ids(Inserted(s, k, b)) == Ids(s) + {b.id}
  {
    var t := Inserted(s, k, b);
    forall id ensures id in Ids(t) <==> id in Ids(s) + {b.id} {
      IdsAre(s, id);
      IdsAre(t, id);
      HasInserted(s, k, b, id);
    }
  }

  lemma InsertedEntries(s: seq<Block>, k: nat, f: Frequencies, id: nat)
    requires k <= |s| && Descending(s) && Entries(s, f) && id in f && id !in Ids(s)
    requires (forall i :: 0 <= i < k ==> s[i].freq >= f[id]) && (k < |s| ==> s[k].freq < f[id])
    ensures Entries(Inserted(s, k, Block(id, f[id])), f) && Descending(Inserted(s, k, Block(id, f[id])))
  {
    IdsAre(s, id);
    InsertedIsDistinct(s, k, f, id);
    InsertedDescends(s, k, Block(id, f[id]));
  }

  lemma InsertedIsDistinct(s: seq<Block>, k: nat, f: Frequencies, id: nat)
    requires k <= |s| && Entries(s, f) && id in f && !Has(s, id)
    ensures Entries(Inserted(s, k, Block(id, f[id])), f)
  {
    var t := Inserted(s, k, Block(id, f[id]));
    assert forall i {:trigger s[i]} :: 0 <= i < |s| ==> s[i].id != id;
  }

  lemma InsertedDescends(s: seq<Block>, k: nat, b: Block)
    requires k <= |s| && Descending(s) && (forall i :: 0 <= i < k ==> s[i].freq >= b.freq)
    requires (k < |s| ==> s[k].freq < b.freq)
    ensures Descending(Inserted(s, k, b))
  {
  }

  lemma HasInserted(s: seq<Block>, k: nat, b: Block, id: nat)
    requires k <= |s|
    ensures Has(Inserted(s, k, b), id) <==> Has(s, id) || id == b.id
  {
    var t := Inserted(s, k, b);
    if i :| 0 <= i < |s| && s[i].id == id {
      assert t[if i < k then i else i + 1] == s[i];
    }
    if i :| 0 <= i < |t| && t[i].id == id && id != b.id {
      assert s[if i < k then i else i - 1] == t[i];
    }
  }

  // ----- no smaller set does better -----

  lemma SumSplit(S: set<nat>, T: set<nat>, f: Frequencies)
    requires S <= f.Keys
    ensures SumOf(S, f) == SumOf(S * T, f) + SumOf(S - T, f)
    decreases S
  {
    if S != {} {
      var x :| x in S;
      SumTake(S, f, x);
      SumSplit(S - {x}, T, f);
      if x in T {
        SumTake(S * T, f, x);
        assert S * T - {x} == (S - {x}) * T && S - T == (S - {x}) - T;
      } else {
        SumTake(S - T, f, x);
        assert S - T - {x} == (S - {x}) - T && S * T == (S - {x}) * T;
      }
    }
  }

  lemma MulStep(n: nat, m: nat)
    ensures (n + 1) * m == n * m + m
  {
  }

  lemma MulMono(a: nat, b: nat, m: nat)
    requires a <= b
    ensures a * m <= b * m
  {
  }

  lemma OneLess(S: set<nat>, x: nat)
    requires x in S
    ensures |S| == |S - {x}| + 1
  {
    assert S == (S - {x}) + {x};
  }

  lemma SumAtMost(S: set<nat>, f: Frequencies, m: nat)
    requires S <= f.Keys && forall x {:trigger x in S} :: x in S ==> f[x] <= m
    ensures SumOf(S, f) <= |S| * m
  {
    if S != {} {
      var x :| x in S;
      SumTake(S, f, x);
      SumAtMost(S - {x}, f, m);
      OneLess(S, x);
      MulStep(|S - {x}|, m);
    }
  }

  lemma SumAtLeast(S: set<nat>, f: Frequencies, m: nat)
    requires S <= f.Keys && forall x {:trigger x in S} :: x in S ==> f[x] >= m
    ensures SumOf(S, f) >= |S| * m
  {
    if S != {} {
      var x :| x in S;
      SumTake(S, f, x);
      SumAtLeast(S - {x}, f, m);
      OneLess(S, x);
      MulStep(|S - {x}|, m);
    }
  }

  lemma SplitSize(S: set<nat>, T: set<nat>)
    ensures |S| == |S * T| + |S - T|
  {
    assert S == S * T + (S - T);
  }

  /** Whatever a set has over another of at least its size, it pays for with smaller elements. */
  lemma Exchange(S: set<nat>, T: set<nat>, f: Frequencies, m: nat)
    requires S <= f.Keys && T <= f.Keys && |S| <= |T|
    requires forall x {:trigger x in f} :: x in f ==> if x in T then f[x] >= m else f[x] <= m
    ensures SumOf(S, f) <= SumOf(T, f)
  {
    SumSplit(S, T, f);
    SumSplit(T, S, f);
    SplitSize(S, T);
    SplitSize(T, S);
    assert S * T == T * S;
    SumAtMost(S - T, f, m);
    SumAtLeast(T - S, f, m);
    MulMono(|S - T|, |T - S|, m);
  }

  lemma InFirst(s: seq<Block>, f: Frequencies, k: nat, i: nat)
    requires Lists(s, f) && k <= |s| && i < |s|
    ensures s[i].id in Ids(s[..k]) <==> i < k
  {
    IdsAre(s[..k], s[i].id);
    if i < k {
      assert s[..k][i].id == s[i].id;
    }
    assert forall j :: 0 <= j < k ==> s[..k][j] == s[j];
  }

  /** Of all sets of at most k blocks, the first k have the greatest sum. */
  lemma FirstAreGreatest(s: seq<Block>, f: Frequencies, S: set<nat>, k: nat)
    requires Lists(s, f) && Descending(s) && S <= f.Keys && |S| <= k <= |s|
    ensures SumOf(S, f) <= Prefix(s, k)
  {
    FirstBlocks(s, f, k);
    if k > 0 {
      var T, m := Ids(s[..k]), s[k - 1].freq;
      forall x | x in f.Keys ensures if x in T then f[x] >= m else f[x] <= m {
        IdsAre(s, x);
        var i :| 0 <= i < |s| && s[i].id == x;
        InFirst(s, f, k, i);
      }
      Exchange(S, T, f, m);
    }
  }

  // ----- shares -----

  function Portion(part: nat, whole: nat): real {
    if whole == 0 then 0.0 else part as real / whole as real
  }

  lemma PortionAdds(a: nat, b: nat, whole: nat)
    ensures Portion(a, whole) + Portion(b, whole) == Portion(a + b, whole)
  {
  }

  lemma ShareGrows(a: nat, b: nat, whole: nat)
    requires a <= b
    ensures Portion(a, whole) <= Portion(b, whole)
  {
    PortionAdds(a, b - a, whole);
  }

  /** The total frequency. */
  method TotalFrequency(s: seq<Block>) returns (total: nat)
    ensures total == Prefix(s, |s|)
  {
    total := 0;
    for i := 0 to |s|
      invariant total == Prefix(s, i)
    {
      total := total + s[i].freq;
    }
  }

  // ----- the selection -----

  /** The selected blocks account for the wanted share, and no smaller set of blocks does. */
  ghost predicate LeastSize(s: seq<Block>, f: Frequencies, hot: set<nat>, wanted: real)
    requires hot <= f.Keys
  {
    && wanted <= Portion(SumOf(hot, f), Prefix(s, |s|))
    && forall S: set<nat> :: S <= f.Keys && |S| < |hot| ==> Portion(SumOf(S, f), Prefix(s, |s|)) < wanted
  }

  lemma {:induction false} FirstBlocks(s: seq<Block>, f: Frequencies, k: nat)
    requires Lists(s, f) && k <= |s|
    ensures Ids(s[..k]) <= f.Keys && |Ids(s[..k])| == k && SumOf(Ids(s[..k]), f) == Prefix(s, k)
  {
    if k > 0 {
      FirstBlocks(s, f, k - 1);
      IdsTake(s, k);
      var x, before := s[k - 1].id, Ids(s[..k - 1]);
      IdsAre(s[..k - 1], x);
      assert x !in before;
      SumTake(before + {x}, f, x);
      assert before + {x} - {x} == before;
    }
  }

  /** The first blocks are the least set as soon as they reach the share, when one fewer did not. */
  lemma FirstAreLeast(s: seq<Block>, f: Frequencies, k: nat, wanted: real)
    requires Lists(s, f) && Descending(s) && 0 < k <= |s|
    requires Portion(Prefix(s, k - 1), Prefix(s, |s|)) < wanted <= Portion(Prefix(s, k), Prefix(s, |s|))
    ensures Ids(s[..k]) <= f.Keys && LeastSize(s, f, Ids(s[..k]), wanted)
  {
    FirstBlocks(s, f, k);
    forall S: set<nat> | S <= f.Keys && |S| < |Ids(s[..k])| ensures Portion(SumOf(S, f), Prefix(s, |s|)) < wanted {
      FirstAreGreatest(s, f, S, k - 1);
      ShareGrows(SumOf(S, f), Prefix(s, k - 1), Prefix(s, |s|));
    }
  }

  /** The share of the first k blocks. */
  function Accounted(s: seq<Block>, k: nat): real
    requires k <= |s|
  {
    Portion(Prefix(s, k), Prefix(s, |s|))
  }

  /** Where the selection stops: when the share was reached just now, or at a block that is not above
      the minimum, if any. */
  ghost predicate Stops(s: seq<Block>, k: nat, reached: bool, wanted: real)
    requires k <= |s|
  {
    if reached then wanted > 0.0 ==> k > 0 && Accounted(s, k - 1) < wanted <= Accounted(s, k)
    else (k == |s| || s[k].freq <= THRESHOLD_MIN_HOT) && (wanted > 0.0 ==> Accounted(s, k) < wanted)
  }

  /** The selection loop: blocks above the minimum, until the share is reached or a block adds
      nothing. The result is the first `k` blocks. */
  method SelectHot(s: seq<Block>, hotThreshold: real, ghost f: Frequencies)
    returns (hotBlocks: set<nat>, reached: bool, ghost k: nat)
    requires Lists(s, f)
    ensures k <= |s| && hotBlocks == Ids(s[..k]) && forall i :: 0 <= i < k ==> s[i].freq > THRESHOLD_MIN_HOT
    ensures Stops(s, k, reached, hotThreshold)
  {
    var totalFrequency := TotalFrequency(s);
    var accountedFor := 0.0;
    hotBlocks, reached, k := {}, false, 0;
    var hbcount := |hotBlocks|;
    var i := 0;
    assert Accounted(s, 0) == 0.0;
    while i < |s|
      invariant i <= |s| && k == i && hbcount == |hotBlocks| && !reached && hotBlocks == Ids(s[..k])
      invariant forall j :: 0 <= j < k ==> s[j].freq > THRESHOLD_MIN_HOT
      invariant accountedFor == Accounted(s, k)
      invariant hotThreshold > 0.0 ==> accountedFor < hotThreshold
    {
      var added;
      hotBlocks, accountedFor, added := AddHot(s, i, totalFrequency, hotBlocks, accountedFor, f);
      k := if added then i + 1 else i;
      if accountedFor >= hotThreshold {
        reached := true;
        return;
      } else if hbcount == |hotBlocks| {
        return;
      }
      hbcount := |hotBlocks|;
      i := i + 1;
    }
  }

  /** One block of the selection loop. */
  method AddHot(s: seq<Block>, i: nat, totalFrequency: nat, hot0: set<nat>, accounted0: real, ghost f: Frequencies)
    returns (hotBlocks: set<nat>, accountedFor: real, added: bool)
    requires Lists(s, f) && i < |s| && totalFrequency == Prefix(s, |s|)
    requires hot0 == Ids(s[..i]) && accounted0 == Accounted(s, i)
    ensures added <==> s[i].freq > THRESHOLD_MIN_HOT
    ensures added ==> hotBlocks == Ids(s[..i + 1]) && |hotBlocks| == |hot0| + 1 && accountedFor == Accounted(s, i + 1)
    ensures !added ==> hotBlocks == hot0 && accountedFor == accounted0
  {
    hotBlocks, accountedFor, added := hot0, accounted0, false;
    if s[i].freq > THRESHOLD_MIN_HOT {
      IdsTake(s, i + 1);
      FirstBlocks(s, f, i);
      FirstBlocks(s, f, i + 1);
      PrefixGrows(s, i);
      hotBlocks := hotBlocks + {s[i].id};
      PortionAdds(Prefix(s, i), s[i].freq, totalFrequency);
      accountedFor := accountedFor + s[i].freq as real / totalFrequency as real;
      added := true;
    }
  }

  lemma PrefixGrows(s: seq<Block>, i: nat)
    requires i < |s|
    ensures s[i].freq <= Prefix(s, i + 1) <= Prefix(s, |s|)
    decreases |s| - i
  {
    if i + 1 < |s| {
      PrefixGrows(s, i + 1);
    }
  }

  /** The blocks that can be selected at all. */
  ghost function AboveMinimum(f: Frequencies): set<nat> {
    set b | b in f && f[b] > THRESHOLD_MIN_HOT
  }

  lemma SumMono(S: set<nat>, T: set<nat>, f: Frequencies)
    requires S <= T <= f.Keys
    ensures SumOf(S, f) <= SumOf(T, f)
  {
    SumSplit(T, S, f);
    assert T * S == S;
  }

  /** The selection reaches the share exactly when all eligible blocks together do. */
  lemma ReachedIfPossible(s: seq<Block>, f: Frequencies, k: nat, reached: bool, wanted: real)
    requires Lists(s, f) && k <= |s| && Ids(s[..k]) <= AboveMinimum(f)
    requires Stops(s, k, reached, wanted) && wanted > 0.0 && (!reached ==> Ids(s[..k]) == AboveMinimum(f))
    ensures reached <==> wanted <= Portion(SumOf(AboveMinimum(f), f), Prefix(s, |s|))
  {
    FirstBlocks(s, f, k);
    SumMono(Ids(s[..k]), AboveMinimum(f), f);
    ShareGrows(Prefix(s, k), SumOf(AboveMinimum(f), f), Prefix(s, |s|));
  }

  /** DetectHotCode as far as the hot blocks: the selection, and everything above the upper
      threshold. The most frequent blocks are selected: as few as reach the share, or all above the
      minimum when these do not reach it together. */
  method DetectHotBlocks(f: Frequencies, hotThreshold: real)
    returns (hot: set<nat>, ghost selected: set<nat>, ghost sorted: seq<Block>)
    ensures Lists(sorted, f) && Descending(sorted) && selected <= hot <= f.Keys
    ensures exists k :: 0 <= k <= |sorted| && selected == Ids(sorted[..k])
    ensures forall b {:trigger b in hot} :: b in hot <==> b in f && (b in selected || f[b] > THRESHOLD_MAX_COLD)
    ensures forall b {:trigger b in hot} :: b in hot ==> f[b] > THRESHOLD_MIN_HOT
    ensures hotThreshold > 0.0 ==>
      if hotThreshold <= Portion(SumOf(AboveMinimum(f), f), Prefix(sorted, |sorted|))
      then LeastSize(sorted, f, selected, hotThreshold) else selected == AboveMinimum(f)
  {
    var BFpairs := SortedBlocks(f);
    sorted := BFpairs;
    var hotBlocks, reached;
    ghost var k;
    hotBlocks, reached, k := SelectHot(BFpairs, hotThreshold, f);
    selected := hotBlocks;
    FirstBlocks(sorted, f, k);
    forall b | b in f ensures b in selected ==> f[b] > THRESHOLD_MIN_HOT
                      ensures !reached && f[b] > THRESHOLD_MIN_HOT ==> b in selected {
      SelectedAreHot(sorted, f, k, reached, b);
    }
    if hotThreshold > 0.0 {
      ReachedIfPossible(sorted, f, k, reached, hotThreshold);
      if reached {
        FirstAreLeast(sorted, f, k, hotThreshold);
      }
    }
    hot := hotBlocks + (set b | b in f && f[b] > THRESHOLD_MAX_COLD);
  }

  lemma SelectedAreHot(s: seq<Block>, f: Frequencies, k: nat, reached: bool, b: nat)
    requires Lists(s, f) && Descending(s) && k <= |s| && b in f
    requires forall i :: 0 <= i < k ==> s[i].freq > THRESHOLD_MIN_HOT
    requires !reached ==> k == |s| || s[k].freq <= THRESHOLD_MIN_HOT
    ensures b in Ids(s[..k]) ==> f[b] > THRESHOLD_MIN_HOT
    ensures !reached && f[b] > THRESHOLD_MIN_HOT ==> b in Ids(s[..k])
  {
    IdsAre(s, b);
    var i :| 0 <= i < |s| && s[i].id == b;
    InFirst(s, f, k, i);
  }
}
