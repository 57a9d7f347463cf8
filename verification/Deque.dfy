/** The deque of Dijkstras: entries by distance, any way of sorting them, and the decrease-key walk. */
module Deque {

  datatype Entry = Entry(nid: nat, distance: real)

  ghost predicate SortedQ(Q: seq<Entry>) {
    |Q| < 2 || (Q[0].distance <= Q[1].distance && SortedQ(Q[1..]))
  }

  /** What the deque holds, by node. */
  ghost function View(Q: seq<Entry>): map<nat, real> {
    if Q == [] then map[] else View(Q[1..])[Q[0].nid := Q[0].distance]
  }

  ghost predicate Distinct(Q: seq<Entry>) {
    Q == [] || (Q[0].nid !in View(Q[1..]) && Distinct(Q[1..]))
  }

  function Insert(x: Entry, s: seq<Entry>): (r: seq<Entry>)
    ensures |r| == |s| + 1
    ensures r[0] == if s == [] || x.distance <= s[0].distance then x else s[0]
  {
    if s == [] || x.distance <= s[0].distance then [x] + s else [s[0]] + Insert(x, s[1..])
  }

  // ----- sorting -----

  /** What sorts the deque: nothing is known of how it orders entries at equal distance. */
  type Sorting = seq<Entry> -> seq<Entry>

  ghost predicate Sorts(sort: Sorting) {
    forall Q {:trigger sort(Q)} :: SortedQ(sort(Q)) && multiset(sort(Q)) == multiset(Q)
  }

  /** Nothing behind the front is cheaper. */
  ghost predicate CheapestFirst(Q: seq<Entry>) {
    |Q| > 0 && forall i :: 0 <= i < |Q| ==> Q[0].distance <= Q[i].distance
  }

  /** It leaves a cheapest front in place, as a stable sort does. */
  ghost predicate Steady(sort: Sorting) {
    forall Q {:trigger sort(Q)} :: CheapestFirst(Q) && Distinct(Q) ==> |sort(Q)| > 0 && sort(Q)[0] == Q[0]
  }

  lemma SortedSize(sort: Sorting, Q: seq<Entry>)
    requires Sorts(sort)
    ensures |sort(Q)| == |Q|
  {
    assert |multiset(sort(Q))| == |multiset(Q)|;
  }

  /** Distinct entries, by their ids. */
  lemma {:induction false} DistinctIds(Q: seq<Entry>)
    ensures Distinct(Q) <==> forall i, j :: 0 <= i < j < |Q| ==> Q[i].nid != Q[j].nid
    ensures forall v :: v in View(Q) <==> exists i :: 0 <= i < |Q| && Q[i].nid == v
  {
    if Q != [] {
      var rest := Q[1..];
      DistinctIds(rest);
      forall v ensures v in View(Q) <==> exists i :: 0 <= i < |Q| && Q[i].nid == v {
        if v in View(rest) {
          var i :| 0 <= i < |rest| && rest[i].nid == v;
          assert Q[i + 1].nid == v;
        }
        if i :| 0 <= i < |Q| && Q[i].nid == v {
          assert i > 0 ==> rest[i - 1].nid == v;
        }
      }
      if Distinct(Q) {
        forall i, j | 0 <= i < j < |Q| ensures Q[i].nid != Q[j].nid {
          assert rest[j - 1] == Q[j];
          if i > 0 {
            assert rest[i - 1] == Q[i];
          }
        }
      }
      if forall i, j :: 0 <= i < j < |Q| ==> Q[i].nid != Q[j].nid {
        forall i, j | 0 <= i < j < |rest| ensures rest[i].nid != rest[j].nid {
          assert rest[i] == Q[i + 1] && rest[j] == Q[j + 1];
        }
        assert forall i {:trigger rest[i]} :: 0 <= i < |rest| ==> rest[i].nid != Q[0].nid;
      }
    }
  }

  lemma {:induction false} EntryIsViewed(Q: seq<Entry>, x: Entry)
    requires Distinct(Q)
    ensures x in Q <==> x.nid in View(Q) && View(Q)[x.nid] == x.distance
  {
    if Q != [] {
      EntryIsViewed(Q[1..], x);
      assert x in Q <==> x == Q[0] || x in Q[1..];
    }
  }

  lemma TwiceIsTwoPlaces(Q: seq<Entry>, i: nat, j: nat)
    requires i < j < |Q| && Q[i] == Q[j]
    ensures multiset(Q)[Q[i]] >= 2
  {
    assert Q == Q[..j] + Q[j..];
    assert Q[i] in Q[..j] && Q[j] in Q[j..];
    assert Q[..j][i] == Q[i] && Q[j..][0] == Q[j];
    assert multiset(Q) == multiset(Q[..j]) + multiset(Q[j..]);
  }

  lemma {:induction false} OnceOnly(Q: seq<Entry>, x: Entry)
    requires Distinct(Q)
    ensures multiset(Q)[x] <= 1
  {
    if Q != [] {
      OnceOnly(Q[1..], x);
      EntryIsViewed(Q[1..], x);
      assert Q == [Q[0]] + Q[1..];
      assert multiset(Q) == multiset([Q[0]]) + multiset(Q[1..]);
    }
  }

  /** Reordering a deque changes nothing of what it holds. */
  lemma SameView(Q: seq<Entry>, R: seq<Entry>)
    requires Distinct(Q) && multiset(Q) == multiset(R)
    ensures Distinct(R) && View(R) == View(Q)
  {
    DistinctIds(Q);
    forall x ensures x in R <==> x in Q {
      assert x in multiset(R) <==> x in R;
      assert x in multiset(Q) <==> x in Q;
    }
    forall i, j | 0 <= i < j < |R| ensures R[i].nid != R[j].nid {
      assert R[i] in Q && R[j] in Q;
      EntryIsViewed(Q, R[i]);
      EntryIsViewed(Q, R[j]);
      if R[i] == R[j] {
        TwiceIsTwoPlaces(R, i, j);
        OnceOnly(Q, R[i]);
      }
    }
    DistinctIds(R);
    forall v ensures v in View(R) <==> v in View(Q) {
      SameMember(Q, R, v);
    }
    forall v | v in View(R) ensures View(R)[v] == View(Q)[v] {
      EntryIsViewed(R, Entry(v, View(R)[v]));
      EntryIsViewed(Q, Entry(v, View(R)[v]));
    }
  }

  lemma SameMember(Q: seq<Entry>, R: seq<Entry>, v: nat)
    requires Distinct(Q) && Distinct(R) && forall x :: x in R <==> x in Q
    ensures v in View(R) <==> v in View(Q)
  {
    if v in View(Q) {
      EntryIsViewed(Q, Entry(v, View(Q)[v]));
      EntryIsViewed(R, Entry(v, View(Q)[v]));
    }
    if v in View(R) {
      EntryIsViewed(R, Entry(v, View(R)[v]));
      EntryIsViewed(Q, Entry(v, View(R)[v]));
    }
  }

  lemma SortingFacts(sort: Sorting, Q: seq<Entry>)
    requires Sorts(sort)
    ensures SortedQ(sort(Q)) && |sort(Q)| == |Q|
    ensures Distinct(Q) ==> Distinct(sort(Q)) && View(sort(Q)) == View(Q)
  {
    SortedSize(sort, Q);
    if Distinct(Q) {
      SameView(Q, sort(Q));
    }
  }

  /** A stable sort by distance: entries at equal distance keep their order. */
  function Sort(Q: seq<Entry>): (r: seq<Entry>)
    ensures |r| == |Q|
  {
    if Q == [] then [] else Insert(Q[0], Sort(Q[1..]))
  }

  /** The decrease-key walk over the deque. */
  function Decrease(Q: seq<Entry>, v: nat, d: real): (r: seq<Entry>)
    ensures |r| == |Q|
  {
    if Q == [] then [] else [if Q[0].nid == v then Entry(v, d) else Q[0]] + Decrease(Q[1..], v, d)
  }

  lemma InsertFacts(x: Entry, s: seq<Entry>)
    requires SortedQ(s)
    ensures SortedQ(Insert(x, s))
    ensures multiset(Insert(x, s)) == multiset{x} + multiset(s)
  {
    if s == [] || x.distance <= s[0].distance {
      assert ([x] + s)[1..] == s;
    } else {
      InsertFacts(x, s[1..]);
      assert ([s[0]] + Insert(x, s[1..]))[1..] == Insert(x, s[1..]);
      assert s == [s[0]] + s[1..];
    }
  }

  lemma ConsView(x: Entry, s: seq<Entry>)
    ensures View([x] + s) == View(s)[x.nid := x.distance]
    ensures Distinct([x] + s) <==> x.nid !in View(s) && Distinct(s)
  {
    assert ([x] + s)[1..] == s;
  }

  lemma {:induction false} InsertView(x: Entry, s: seq<Entry>)
    requires Distinct(s) && x.nid !in View(s)
    ensures Distinct(Insert(x, s)) && View(Insert(x, s)) == View(s)[x.nid := x.distance]
  {
    if s == [] || x.distance <= s[0].distance {
      ConsView(x, s);
    } else {
      var rest := s[1..];
      assert s == [s[0]] + rest;
      ConsView(s[0], rest);
      InsertView(x, rest);
      ConsView(s[0], Insert(x, rest));
    }
  }

  lemma SortFacts(Q: seq<Entry>)
    ensures SortedQ(Sort(Q)) && multiset(Sort(Q)) == multiset(Q)
    ensures Distinct(Q) ==> Distinct(Sort(Q)) && View(Sort(Q)) == View(Q)
  {
    if Q != [] {
      SortFacts(Q[1..]);
      InsertFacts(Q[0], Sort(Q[1..]));
      if Distinct(Q) {
        InsertView(Q[0], Sort(Q[1..]));
      }
      assert Q == [Q[0]] + Q[1..];
    }
  }

  lemma SortedHead(Q: seq<Entry>, k: nat)
    requires SortedQ(Q) && k < |Q|
    ensures Q[0].distance <= Q[k].distance
  {
    if k > 0 {
      SortedHead(Q[1..], k - 1);
    }
  }

  lemma SortedView(Q: seq<Entry>)
    requires SortedQ(Q) && |Q| > 0
    ensures forall v :: v in View(Q) ==> Q[0].distance <= View(Q)[v]
  {
    if |Q| > 1 {
      SortedView(Q[1..]);
    }
  }

  lemma AppendFacts(Q: seq<Entry>, x: Entry)
    requires Distinct(Q) && x.nid !in View(Q)
    ensures Distinct(Q + [x]) && View(Q + [x]) == View(Q)[x.nid := x.distance]
  {
    if Q == [] {
      assert Q + [x] == [x] && [x][1..] == [];
    } else {
      AppendFacts(Q[1..], x);
      assert (Q + [x])[1..] == Q[1..] + [x];
    }
  }

  lemma DecreaseFacts(Q: seq<Entry>, v: nat, d: real)
    requires Distinct(Q)
    ensures Distinct(Decrease(Q, v, d))
    ensures View(Decrease(Q, v, d)) == if v in View(Q) then View(Q)[v := d] else View(Q)
  {
    if Q != [] {
      DecreaseFacts(Q[1..], v, d);
      assert Decrease(Q, v, d)[1..] == Decrease(Q[1..], v, d);
    }
  }

  /** Re-sorting in the middle of a scan leaves a cheapest front in place. */
  lemma SortKeepsFront(Q: seq<Entry>)
    requires CheapestFirst(Q)
    ensures Sort(Q) == [Q[0]] + Sort(Q[1..])
  {
    var s := Sort(Q[1..]);
    SortFacts(Q[1..]);
    if s != [] {
      assert s[0] in multiset(Q[1..]);
      var i :| 0 <= i < |Q[1..]| && Q[1..][i] == s[0];
      assert Q[i + 1] == s[0];
    }
  }

  /** So the stable sort is steady. */
  lemma StableIsSteady()
    ensures Sorts(Sort) && Steady(Sort)
  {
    forall Q ensures SortedQ(Sort(Q)) && multiset(Sort(Q)) == multiset(Q) {
      SortFacts(Q);
    }
    forall Q | CheapestFirst(Q) && Distinct(Q) ensures |Sort(Q)| > 0 && Sort(Q)[0] == Q[0] {
      SortKeepsFront(Q);
    }
  }

  /** Any sort leaves a front in place that is strictly cheapest. */
  lemma StrictStays(sort: Sorting, Q: seq<Entry>)
    requires Sorts(sort) && |Q| > 0 && Distinct(Q) && forall i :: 1 <= i < |Q| ==> Q[0].distance < Q[i].distance
    ensures |sort(Q)| > 0 && sort(Q)[0] == Q[0]
  {
    DistinctIds(Q);
    FrontIsForced(Q);
  }

  /** Without stability a cheapest front is safe from a re-sort exactly when it is strictly
      cheapest: on a tie some other sorted arrangement puts another entry first. */
  lemma FrontIsForced(Q: seq<Entry>)
    requires |Q| > 0 && forall i, j :: 0 <= i < j < |Q| ==> Q[i] != Q[j]
    ensures (forall S: seq<Entry> :: SortedQ(S) && multiset(S) == multiset(Q) ==> |S| > 0 && S[0] == Q[0])
       <==> (forall i :: 1 <= i < |Q| ==> Q[0].distance < Q[i].distance)
  {
    if forall i :: 1 <= i < |Q| ==> Q[0].distance < Q[i].distance {
      forall S: seq<Entry> | SortedQ(S) && multiset(S) == multiset(Q) ensures |S| > 0 && S[0] == Q[0] {
        assert Q[0] in multiset(S);
        var k :| 0 <= k < |S| && S[k] == Q[0];
        SortedHead(S, k);
        assert S[0] in multiset(Q);
      }
    } else {
      var i :| 1 <= i < |Q| && Q[i].distance <= Q[0].distance;
      var T := [Q[i]] + (Q[..i] + Q[i + 1..]);
      assert Q == Q[..i] + [Q[i]] + Q[i + 1..];
      assert multiset(T) == multiset(Q);
      SortFacts(T);
      assert T[1..] == Q[..i] + Q[i + 1..];
      assert Sort(T)[0] == Q[i] || Sort(T)[0].distance < Q[i].distance;
      assert Sort(T)[0] != Q[0];
    }
  }
}
