/** findOriginalBlockIDs on edges: the profile edges behind an edge object, found by draining a
    queue of the edges it covers. */
module Provenance {
  import opened Graphs
  import opened ControlState
  import opened Flow

  // ----- sizes -----

  ghost function Size(o: EdgeObject): nat
    decreases o, 2
  {
    match o
    case Profiled(_) => 1
    case Virtual(_, _) => 1 + SizeIn(o, o.under)
  }

  ghost function SizeIn(o: EdgeObject, s: set<EdgeObject>): nat
    requires o.Virtual? && s <= o.under
    decreases o, 1, |s|
  {
    if s == {} then 0
    else
      var x :| x in s;
      Size(x) + SizeIn(o, s - {x})
  }

  lemma SizeTake(o: EdgeObject, s: set<EdgeObject>, x: EdgeObject)
    requires o.Virtual? && s <= o.under && x in s
    ensures SizeIn(o, s) == Size(x) + SizeIn(o, s - {x})
    decreases |s|
  {
    var y :| y in s && SizeIn(o, s) == Size(y) + SizeIn(o, s - {y});
    if y != x {
      SizeTake(o, s - {y}, x);
      SizeTake(o, s - {x}, y);
      assert s - {y} - {x} == s - {x} - {y};
    }
  }

  ghost function QueueSize(Q: seq<EdgeObject>): nat {
    if Q == [] then 0 else Size(Q[0]) + QueueSize(Q[1..])
  }

  lemma QueueAppend(Q: seq<EdgeObject>, o: EdgeObject)
    ensures QueueSize(Q + [o]) == QueueSize(Q) + Size(o)
  {
    if Q != [] {
      QueueAppend(Q[1..], o);
      assert (Q + [o])[1..] == Q[1..] + [o];
    }
  }

  // ----- the queue -----

  function FlattenAll(Q: seq<EdgeObject>): set<Edge> {
    set q, k | q in Q && k in Flatten(q) :: k
  }

  /** Found so far, and still to come from the queue, are all profile edges; and the queue holds
      whatever is hollow. */
  ghost predicate Draining(o: EdgeObject, eEdges: set<Edge>, Q: seq<EdgeObject>) {
    && Flatten(o) == eEdges + FlattenAll(Q)
    && (Hollow(o) <==> exists q :: q in Q && Hollow(q))
  }

  /** The covered edges of a virtual edge are queued. */
  method PushUnder(ve: EdgeObject, Q0: seq<EdgeObject>) returns (Q: seq<EdgeObject>)
    requires ve.Virtual?
    ensures Q0 <= Q && (forall q :: q in Q <==> q in Q0 || q in ve.under)
    ensures QueueSize(Q) + 1 == QueueSize(Q0) + Size(ve)
  {
    Q := Q0;
    var done: set<EdgeObject> := {};
    while done < ve.under
      invariant done <= ve.under && Q0 <= Q
      invariant forall q :: q in Q <==> q in Q0 || q in done
      invariant QueueSize(Q) == QueueSize(Q0) + SizeIn(ve, done)
      decreases ve.under - done
    {
      var e :| e in ve.under && e !in done;
      SizeTake(ve, done + {e}, e);
      assert done + {e} - {e} == done;
      QueueAppend(Q, e);
      Q := Q + [e];
      done := done + {e};
    }
    assert done == ve.under;
  }

  lemma DrainVirtual(o: EdgeObject, eEdges: set<Edge>, Q: seq<EdgeObject>, more: seq<EdgeObject>)
    requires |Q| > 0 && Q[0].Virtual? && Q[0].under != {} && Draining(o, eEdges, Q) && Q <= more
    requires forall q :: q in more <==> q in Q || q in Q[0].under
    ensures Draining(o, eEdges, more[1..])
  {
    var front, rest := Q[0], more[1..];
    InRest(Q, more);
    forall k | k in FlattenAll(Q) ensures k in FlattenAll(rest) {
      var q :| q in Q && k in Flatten(q);
      if q == front {
        var u :| u in front.under && k in Flatten(u);
        assert u in rest;
      } else {
        assert q in rest;
      }
    }
    forall k | k in FlattenAll(rest) ensures k in FlattenAll(Q) {
      var q :| q in rest && k in Flatten(q);
      if q !in Q {
        assert k in Flatten(front) && front in Q;
      }
    }
    if q :| q in Q && Hollow(q) {
      if q == front {
        var u :| u in front.under && Hollow(u);
        assert u in rest;
      } else {
        assert q in rest;
      }
    }
    if q :| q in rest && Hollow(q) {
      if q !in Q {
        assert Hollow(front) && front in Q;
      }
    }
  }

  /** Without its front the longer queue holds everything but the front, and what the front covers. */
  lemma InRest(Q: seq<EdgeObject>, more: seq<EdgeObject>)
    requires |Q| > 0 && Q[0].Virtual? && Q <= more
    requires forall q :: q in more <==> q in Q || q in Q[0].under
    ensures forall q :: q in more[1..] ==> q in Q || q in Q[0].under
    ensures forall q :: (q in Q && q != Q[0]) || q in Q[0].under ==> q in more[1..]
  {
    assert more == [Q[0]] + more[1..];
    forall u | u in Q[0].under ensures u != Q[0] {
      SizeTake(Q[0], Q[0].under, u);
    }
  }

  lemma DrainProfiled(o: EdgeObject, eEdges: set<Edge>, Q: seq<EdgeObject>)
    requires |Q| > 0 && Q[0].Profiled? && Draining(o, eEdges, Q)
    ensures Draining(o, eEdges + {Q[0].key}, Q[1..])
  {
    assert forall q :: q in Q <==> q == Q[0] || q in Q[1..];
    assert Q[0] in Q && Flatten(Q[0]) == {Q[0].key};
    forall k ensures k in FlattenAll(Q) <==> k == Q[0].key || k in FlattenAll(Q[1..]) {
      if k in FlattenAll(Q) {
        var q :| q in Q && k in Flatten(q);
        assert q == Q[0] || q in Q[1..];
      }
      if k in FlattenAll(Q[1..]) {
        var q :| q in Q[1..] && k in Flatten(q);
        assert q in Q;
      }
    }
  }

  /** findOriginalBlockIDs: exactly the flattened edge, or the report of a virtual edge that covers
      nothing. */
  method FindOriginalEdges(edge: EdgeObject) returns (threw: bool, eEdges: set<Edge>)
    ensures threw <==> Hollow(edge)
    ensures !threw ==> eEdges == Flatten(edge) != {}
  {
    threw, eEdges := false, {};
    var Q := [edge];
    assert FlattenAll(Q) == Flatten(edge) by {
      assert edge in Q;
    }
    while Q != []
      invariant Draining(edge, eEdges, Q)
      decreases QueueSize(Q)
    {
      assert Q[0] in Q;
      if Q[0].Virtual? {
        if Q[0].under == {} {
          return true, {};
        }
        var more := PushUnder(Q[0], Q);
        DrainVirtual(edge, eEdges, Q, more);
        assert more[0] == Q[0];
        Q := more[1..];
      } else {
        DrainProfiled(edge, eEdges, Q);
        eEdges := eEdges + {Q[0].key};
        Q := Q[1..];
      }
    }
    SolidIsNotEmpty(edge);
  }

  lemma SolidIsNotEmpty(o: EdgeObject)
    requires !Hollow(o)
    ensures Flatten(o) != {}
  {
    match o
    case Profiled(key) => assert key in Flatten(o);
    case Virtual(_, under) =>
      var u :| u in under;
      SolidIsNotEmpty(u);
      var k :| k in Flatten(u);
      assert k in Flatten(o);
  }
}
