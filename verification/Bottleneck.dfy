/** FindNewSubgraph and GreenEdgeDFS: an edge-colouring search for a bottleneck region. */
module Bottleneck {
  import opened Graphs
  import opened Sets
  import opened CycleSearch
  import opened Regions
  import opened Enclosures

  const MAX_BOTTLENECK_SIZE: nat := 200

  datatype Color = White | Red | Yellow | Blue | Green

  type Colors = map<Edge, Color>

  /** Reading an edge that was never coloured yields the default colour. */
  function ColorOf(colors: Colors, e: Edge): Color {
    if e in colors then colors[e] else White
  }

  predicate AtLeastYellow(c: Color) {
    c == Yellow || c == Blue || c == Green
  }

  function WithColor(colors: Colors, c: Color): set<Edge> {
    set e | e in colors && colors[e] == c
  }

  function HotEdges(colors: Colors): set<Edge> {
    set e | e in colors && AtLeastYellow(colors[e])
  }

  /** Edges never lose a colour, and never drop below Yellow. */
  predicate Rising(before: Colors, after: Colors) {
    before.Keys <= after.Keys && HotEdges(before) <= HotEdges(after)
  }

  predicate Known(L: Linked, colors: Colors)
    requires Mirrored(L)
  {
    forall e {:trigger e in colors} :: e in colors ==> e.snk in L.preds && e in L.preds[e.snk]
  }

  /** The colours as sets: everything coloured, everything at least yellow, the blue, the green. */
  datatype Paint = Paint(keys: set<Edge>, hot: set<Edge>, blue: set<Edge>, green: set<Edge>)

  function PaintOf(colors: Colors): Paint {
    Paint(colors.Keys, HotEdges(colors), WithColor(colors, Blue), WithColor(colors, Green))
  }

  /** No stored colour is White, and the sets are these. */
  ghost predicate Painted(colors: Colors, keys: set<Edge>, hot: set<Edge>, blue: set<Edge>, green: set<Edge>) {
    White !in colors.Values && PaintOf(colors) == Paint(keys, hot, blue, green)
  }

  // ----- the first pass: yellow edges -----

  function Yellows(colors: Colors): set<Edge> {
    WithColor(colors, Yellow)
  }

  /** Of the yellow edges P, those whose sink is entered only by red and yellow edges. */
  function Turning(L: Linked, colors: Colors, P: set<Edge>): set<Edge>
    requires Mirrored(L) && Known(L, colors)
  {
    set e | e in P && e in Yellows(colors) && L.preds[e.snk] <= WithColor(colors, Red) + Yellows(colors)
  }

  /** The edges that leave a sink of P which is entered only by yellow edges. */
  function Raised(L: Linked, E: set<Edge>, colors: Colors, P: set<Edge>): set<Edge>
    requires Mirrored(L) && E == EdgesOf(L)
  {
    set e | e in E && L.preds[e.src] <= Yellows(colors) && !(L.preds[e.src] !! P)
  }

  /** The edges that enter a sink of P. */
  function Touched(L: Linked, E: set<Edge>, P: set<Edge>): set<Edge>
    requires Mirrored(L) && E == EdgesOf(L)
  {
    set e | e in E && !(L.preds[e.snk] !! P)
  }

  /** What the first pass makes of the yellow edges P. */
  function YellowPaint(L: Linked, E: set<Edge>, before: Colors, P: set<Edge>): Paint
    requires Mirrored(L) && E == EdgesOf(L) && Known(L, before)
  {
    Paint(before.Keys + Raised(L, E, before, P) + Touched(L, E, P),
          HotEdges(before) + Raised(L, E, before, P),
          WithColor(before, Blue) + Turning(L, before, P),
          WithColor(before, Green))
  }

  ghost predicate YellowPass(L: Linked, E: set<Edge>, before: Colors, P: set<Edge>, after: Colors)
    requires Mirrored(L) && E == EdgesOf(L) && Known(L, before)
  {
    White !in after.Values && PaintOf(after) == YellowPaint(L, E, before, P)
  }

  /** Every yellow edge, in any order: it turns blue when everything entering its sink is red
      or yellow; when everything entering its sink is yellow the sink's successors turn
      yellow; and unknown edges entering its sink turn red. */
  method EvaluateYellow(L: Linked, before: Colors) returns (colors: Colors)
    requires Mirrored(L) && Known(L, before) && White !in before.Values
    ensures YellowPass(L, EdgesOf(L), before, Yellows(before), colors)
  {
    colors := before;
    var yellowCopy, done := Yellows(before), {};
    ghost var E := EdgesOf(L);
    NothingEvaluated(L, E, before);
    while done < yellowCopy
      invariant done <= yellowCopy
      invariant YellowPass(L, E, before, done, colors)
      decreases yellowCopy - done
    {
      var ye :| ye in yellowCopy && ye !in done;
      colors := EvaluateNext(L, E, before, done, ye, colors);
      done := done + {ye};
    }
  }

  method EvaluateNext(L: Linked, ghost E: set<Edge>, before: Colors, ghost P: set<Edge>, ye: Edge, colors0: Colors)
    returns (colors: Colors)
    requires Mirrored(L) && E == EdgesOf(L) && Known(L, before) && ye in Yellows(before) && ye !in P
    requires YellowPass(L, E, before, P, colors0)
    ensures YellowPass(L, E, before, P + {ye}, colors)
  {
    StillYellow(L, E, before, P, ye, colors0);
    colors := EvaluateEdge(L, before, ye, colors0);
    GrowPass(L, E, before, P, ye, colors0, colors);
  }

  lemma NothingEvaluated(L: Linked, E: set<Edge>, before: Colors)
    requires Mirrored(L) && E == EdgesOf(L) && Known(L, before) && White !in before.Values
    ensures YellowPass(L, E, before, {}, before)
  {
    assert Raised(L, E, before, {}) == {} && Touched(L, E, {}) == {} && Turning(L, before, {}) == {};
  }

  /** The successors one yellow edge raises, and whether the edge itself turns blue. */
  function RaisedBy(L: Linked, before: Colors, ye: Edge): set<Edge>
    requires Mirrored(L) && Known(L, before) && ye in before
  {
    if L.preds[ye.snk] <= Yellows(before) then L.succs[ye.snk] else {}
  }

  function TurnedBy(L: Linked, before: Colors, ye: Edge): set<Edge>
    requires Mirrored(L) && Known(L, before) && ye in before
  {
    if L.preds[ye.snk] <= WithColor(before, Red) + Yellows(before) then {ye} else {}
  }

  method EvaluateEdge(L: Linked, before: Colors, ye: Edge, colors0: Colors) returns (colors: Colors)
    requires Mirrored(L) && Known(L, before) && ye in Yellows(before)
    requires White !in colors0.Values && ye in colors0 && colors0[ye] == Yellow
    ensures Painted(colors, colors0.Keys + RaisedBy(L, before, ye) + L.preds[ye.snk],
                    HotEdges(colors0) + RaisedBy(L, before, ye),
                    WithColor(colors0, Blue) + TurnedBy(L, before, ye), WithColor(colors0, Green))
  {
    var yellowCopy := Yellows(before);
    var atLeastRed := WithColor(before, Red) + yellowCopy;
    var atLeastYellow := HotEdges(before);
    var preds := L.preds[ye.snk];
    var allRedOrGreater := preds <= atLeastRed;
    var allYellowOrGreater := preds <= atLeastRed && preds <= atLeastYellow;
    YellowIsRedAndHot(before, preds);
    colors := colors0;
    if allRedOrGreater {
      colors := colors[ye := Blue];
    }
    ghost var blued := colors;
    if allYellowOrGreater {
      colors := RaiseSuccessors(L, ye.snk, colors);
    }
    ghost var lifted := colors;
    colors := RedUnknown(preds - {ye}, colors);
    PaintEdge(colors0, ye, allRedOrGreater, RaisedBy(L, before, ye), preds, blued, lifted, colors);
  }

  lemma GrowPass(L: Linked, E: set<Edge>, before: Colors, P: set<Edge>, ye: Edge, c: Colors, d: Colors)
    requires Mirrored(L) && E == EdgesOf(L) && Known(L, before) && ye in Yellows(before)
    requires YellowPass(L, E, before, P, c)
    requires Painted(d, c.Keys + RaisedBy(L, before, ye) + L.preds[ye.snk], HotEdges(c) + RaisedBy(L, before, ye),
                     WithColor(c, Blue) + TurnedBy(L, before, ye), WithColor(c, Green))
    ensures YellowPass(L, E, before, P + {ye}, d)
  {
    GrowRaised(L, E, before, P, ye);
    GrowTouched(L, E, before, P, ye);
    GrowTurning(L, before, P, ye);
    Regroup(c, d, before.Keys, HotEdges(before), WithColor(before, Blue), WithColor(before, Green),
            Raised(L, E, before, P), Touched(L, E, P), Turning(L, before, P),
            RaisedBy(L, before, ye), L.preds[ye.snk], TurnedBy(L, before, ye));
  }

  lemma Regroup(c: Colors, d: Colors, K: set<Edge>, H: set<Edge>, B: set<Edge>, G: set<Edge>,
                R: set<Edge>, T: set<Edge>, U: set<Edge>, up: set<Edge>, preds: set<Edge>, turn: set<Edge>)
    requires Painted(c, K + R + T, H + R, B + U, G)
    requires Painted(d, c.Keys + up + preds, HotEdges(c) + up, WithColor(c, Blue) + turn, WithColor(c, Green))
    ensures Painted(d, K + (R + up) + (T + preds), H + (R + up), B + (U + turn), G)
  {
    assert (K + R + T) + up + preds == K + (R + up) + (T + preds);
    assert (H + R) + up == H + (R + up);
    assert (B + U) + turn == B + (U + turn);
  }

  lemma YellowIsRedAndHot(before: Colors, S: set<Edge>)
    ensures S <= Yellows(before) <==> S <= WithColor(before, Red) + Yellows(before) && S <= HotEdges(before)
  {
  }

  lemma StillYellow(L: Linked, E: set<Edge>, before: Colors, P: set<Edge>, ye: Edge, c: Colors)
    requires Mirrored(L) && E == EdgesOf(L) && Known(L, before) && ye in Yellows(before) && ye !in P
    requires YellowPass(L, E, before, P, c)
    ensures ye in c && c[ye] == Yellow && ye in L.preds[ye.snk]
    ensures ye !in Turning(L, before, P)
  {
    assert ye in HotEdges(c) && ye !in WithColor(c, Blue) && ye !in WithColor(c, Green);
  }

  lemma GrowTurning(L: Linked, before: Colors, P: set<Edge>, ye: Edge)
    requires Mirrored(L) && Known(L, before) && ye in Yellows(before)
    ensures Turning(L, before, P + {ye}) == Turning(L, before, P) + TurnedBy(L, before, ye)
  {
  }

  lemma GrowRaised(L: Linked, E: set<Edge>, before: Colors, P: set<Edge>, ye: Edge)
    requires Mirrored(L) && E == EdgesOf(L) && Known(L, before) && ye in Yellows(before)
    ensures Raised(L, E, before, P + {ye}) == Raised(L, E, before, P) + RaisedBy(L, before, ye)
  {
    forall e
      ensures e in Raised(L, E, before, P + {ye}) <==> e in Raised(L, E, before, P) || e in RaisedBy(L, before, ye)
    {
    }
  }

  lemma GrowTouched(L: Linked, E: set<Edge>, before: Colors, P: set<Edge>, ye: Edge)
    requires Mirrored(L) && E == EdgesOf(L) && Known(L, before) && ye in Yellows(before)
    ensures Touched(L, E, P + {ye}) == Touched(L, E, P) + L.preds[ye.snk]
  {
    forall e ensures e in Touched(L, E, P + {ye}) <==> e in Touched(L, E, P) || e in L.preds[ye.snk] {
    }
  }

  lemma PaintEdge(c0: Colors, ye: Edge, turn: bool, up: set<Edge>, preds: set<Edge>, c1: Colors, c2: Colors, c3: Colors)
    requires White !in c0.Values && ye in c0 && c0[ye] == Yellow && ye in preds
    requires c1 == if turn then c0[ye := Blue] else c0
    requires Lifted(c1, up, c2) || (up == {} && c2 == c1)
    requires Reddened(c2, preds - {ye}, c3)
    ensures Painted(c3, c0.Keys + up + preds, HotEdges(c0) + up, WithColor(c0, Blue) + (if turn then {ye} else {}),
                    WithColor(c0, Green))
  {
    PaintBlue(c0, ye);
    if Lifted(c1, up, c2) {
      PaintLifted(c1, up, c2);
    }
    PaintReddened(c2, preds - {ye}, c3);
  }

  ghost predicate Lifted(before: Colors, S: set<Edge>, after: Colors) {
    && after.Keys == before.Keys + S
    && forall e :: e in after ==>
         after[e] == if e in S && ColorOf(before, e) in {White, Red} then Yellow else ColorOf(before, e)
  }

  ghost predicate Reddened(before: Colors, S: set<Edge>, after: Colors) {
    && after.Keys == before.Keys + S
    && forall e :: e in after ==> after[e] == if e in before then before[e] else Red
  }

  lemma PaintBlue(c: Colors, e: Edge)
    requires e in c && c[e] == Yellow && White !in c.Values
    ensures Painted(c[e := Blue], c.Keys, HotEdges(c), WithColor(c, Blue) + {e}, WithColor(c, Green))
  {
    var d := c[e := Blue];
    assert forall f :: f in d && f != e ==> d[f] == c[f] && c[f] in c.Values;
  }

  lemma PaintLifted(c: Colors, S: set<Edge>, d: Colors)
    requires Lifted(c, S, d) && White !in c.Values
    ensures Painted(d, c.Keys + S, HotEdges(c) + S, WithColor(c, Blue), WithColor(c, Green))
  {
    forall e | e in d ensures d[e] != White {
      assert e in c ==> c[e] in c.Values;
    }
    forall e | e in S && e in c ensures c[e] == Red || AtLeastYellow(c[e]) {
      assert c[e] in c.Values;
    }
  }

  lemma PaintReddened(c: Colors, S: set<Edge>, d: Colors)
    requires Reddened(c, S, d) && White !in c.Values
    ensures Painted(d, c.Keys + S, HotEdges(c), WithColor(c, Blue), WithColor(c, Green))
  {
    forall e | e in d ensures d[e] != White {
      assert e in c ==> c[e] in c.Values;
    }
  }

  method RaiseSuccessors(L: Linked, n: nat, before: Colors) returns (colors: Colors)
    requires Mirrored(L) && n in L.succs
    ensures Lifted(before, L.succs[n], colors)
  {
    colors := before;
    var todo := L.succs[n];
    while todo != {}
      invariant todo <= L.succs[n]
      invariant colors.Keys == before.Keys + (L.succs[n] - todo)
      invariant forall e :: e in colors ==>
                  colors[e] == if e in L.succs[n] - todo && ColorOf(before, e) in {White, Red} then Yellow
                               else ColorOf(before, e)
      decreases todo
    {
      var succ :| succ in todo;
      todo := todo - {succ};
      if ColorOf(colors, succ) == White {
        colors := colors[succ := Yellow];
      } else if ColorOf(colors, succ) == Red {
        colors := colors[succ := Yellow];
      }
    }
  }

  method RedUnknown(preds: set<Edge>, before: Colors) returns (colors: Colors)
    requires White !in before.Values
    ensures Reddened(before, preds, colors)
  {
    colors := before;
    var todo := preds;
    while todo != {}
      invariant todo <= preds
      invariant colors.Keys == before.Keys + (preds - todo)
      invariant forall e :: e in colors ==> colors[e] == if e in before then before[e] else Red
      decreases todo
    {
      var pred :| pred in todo;
      todo := todo - {pred};
      if ColorOf(colors, pred) == White {
        colors := colors[pred := Red];
      }
    }
  }

  // ----- the second pass: blue edges -----

  function Eligible(colors: Colors): set<Edge> {
    WithColor(colors, Blue) + WithColor(colors, Green)
  }

  /** Of the blue edges P, those whose sink is entered only by blue and green edges. */
  function Confirmed(L: Linked, colors: Colors, P: set<Edge>): set<Edge>
    requires Mirrored(L) && Known(L, colors)
  {
    set e | e in P && e in WithColor(colors, Blue) && L.preds[e.snk] <= Eligible(colors)
  }

  /** The edges leaving a sink of S: the pass paints them yellow whatever they were. */
  function Onward(L: Linked, E: set<Edge>, S: set<Edge>): set<Edge>
    requires Mirrored(L) && E == EdgesOf(L)
  {
    set e | e in E && !(L.preds[e.src] !! S)
  }

  /** What the second pass makes of the blue edges P. */
  ghost predicate BluePass(L: Linked, E: set<Edge>, before: Colors, P: set<Edge>, after: Colors)
    requires Mirrored(L) && E == EdgesOf(L) && Known(L, before)
  {
    var N := Confirmed(L, before, P);
    var over := Onward(L, E, N);
    && White !in after.Values
    && after.Keys == before.Keys + over
    && HotEdges(after) == HotEdges(before) + over
    && WithColor(after, Blue) == WithColor(before, Blue) - P - over
    && WithColor(before, Green) + N - over <= WithColor(after, Green) <= WithColor(before, Green) + N
  }

  /** Every blue edge, in any order: green when everything entering its sink is blue or green,
      in which case the sink's successors turn yellow; otherwise back to yellow. */
  method ResolveBlue(L: Linked, before: Colors) returns (colors: Colors)
    requires Mirrored(L) && Known(L, before) && White !in before.Values
    ensures BluePass(L, EdgesOf(L), before, WithColor(before, Blue), colors)
  {
    colors := before;
    var blueCopy, done := WithColor(before, Blue), {};
    ghost var E := EdgesOf(L);
    NothingResolved(L, E, before);
    while done < blueCopy
      invariant done <= blueCopy
      invariant BluePass(L, E, before, done, colors)
      decreases blueCopy - done
    {
      var be :| be in blueCopy && be !in done;
      colors := ResolveEdge(L, E, before, done, be, colors);
      done := done + {be};
    }
  }

  lemma NothingResolved(L: Linked, E: set<Edge>, before: Colors)
    requires Mirrored(L) && E == EdgesOf(L) && Known(L, before) && White !in before.Values
    ensures BluePass(L, E, before, {}, before)
  {
    assert Confirmed(L, before, {}) == {};
    assert Onward(L, E, {}) == {};
  }

  method ResolveEdge(L: Linked, ghost E: set<Edge>, before: Colors, ghost P: set<Edge>, be: Edge, colors0: Colors)
    returns (colors: Colors)
    requires Mirrored(L) && E == EdgesOf(L) && Known(L, before)
    requires be in WithColor(before, Blue) && be !in P && P <= WithColor(before, Blue)
    requires BluePass(L, E, before, P, colors0)
    ensures BluePass(L, E, before, P + {be}, colors)
  {
    var eligible := Eligible(before);
    var preds := L.preds[be.snk];
    var allFound := preds <= eligible;
    if allFound {
      colors := colors0[be := Green];
      var allYellow := forall pred :: pred in preds ==> AtLeastYellow(ColorOf(colors, pred));
      assert allYellow by {
        EligibleStaysHot(L, E, before, P, colors0, preds);
      }
      if allYellow {
        colors := colors + map succ | succ in L.succs[be.snk] :: Yellow;
      }
      ResolveGreen(L, E, before, P, be, colors0, colors);
    } else {
      colors := colors0[be := Yellow];
      ResolveYellow(L, E, before, P, be, colors0);
    }
  }

  lemma EligibleStaysHot(L: Linked, E: set<Edge>, before: Colors, P: set<Edge>, c: Colors, S: set<Edge>)
    requires Mirrored(L) && E == EdgesOf(L) && Known(L, before)
    requires BluePass(L, E, before, P, c) && S <= Eligible(before)
    ensures forall e :: e in S ==> AtLeastYellow(ColorOf(c, e))
  {
    forall e | e in S ensures AtLeastYellow(ColorOf(c, e)) {
      assert e in HotEdges(before);
      assert e in HotEdges(c);
    }
  }

  lemma PaintOver(c: Colors, be: Edge, S: set<Edge>, d: Colors)
    requires White !in c.Values && d == c[be := Green] + map succ | succ in S :: Yellow
    ensures White !in d.Values && d.Keys == c.Keys + {be} + S && HotEdges(d) == HotEdges(c) + {be} + S
    ensures WithColor(d, Blue) == WithColor(c, Blue) - {be} - S
    ensures WithColor(d, Green) == WithColor(c, Green) + {be} - S
  {
    forall e | e in d ensures d[e] != White {
      assert e in c ==> c[e] in c.Values;
    }
  }

  lemma GrowConfirmed(L: Linked, E: set<Edge>, before: Colors, P: set<Edge>, be: Edge)
    requires Mirrored(L) && E == EdgesOf(L) && Known(L, before) && be in WithColor(before, Blue)
    ensures L.preds[be.snk] <= Eligible(before) ==>
              && Confirmed(L, before, P + {be}) == Confirmed(L, before, P) + {be}
              && Onward(L, E, Confirmed(L, before, P + {be})) == Onward(L, E, Confirmed(L, before, P)) + L.succs[be.snk]
    ensures !(L.preds[be.snk] <= Eligible(before)) ==> Confirmed(L, before, P + {be}) == Confirmed(L, before, P)
  {
    var N := Confirmed(L, before, P);
    if L.preds[be.snk] <= Eligible(before) {
      assert Confirmed(L, before, P + {be}) == N + {be};
      forall e ensures e in Onward(L, E, N + {be}) <==> e in Onward(L, E, N) || e in L.succs[be.snk] {
        if e in E {
          assert e in L.succs[e.src];
          assert be in L.preds[e.src] <==> be.snk == e.src;
        }
      }
    }
  }

  lemma ResolveGreen(L: Linked, E: set<Edge>, before: Colors, P: set<Edge>, be: Edge, c: Colors, d: Colors)
    requires Mirrored(L) && E == EdgesOf(L) && Known(L, before)
    requires be in WithColor(before, Blue) && be !in P && P <= WithColor(before, Blue)
    requires BluePass(L, E, before, P, c) && L.preds[be.snk] <= Eligible(before)
    requires d == c[be := Green] + map succ | succ in L.succs[be.snk] :: Yellow
    ensures BluePass(L, E, before, P + {be}, d)
  {
    PaintOver(c, be, L.succs[be.snk], d);
    GrowConfirmed(L, E, before, P, be);
    assert be in HotEdges(before);
    MergeGreen(before, P, be, Confirmed(L, before, P), Onward(L, E, Confirmed(L, before, P)), L.succs[be.snk], c, d);
  }

  lemma MergeGreen(before: Colors, P: set<Edge>, be: Edge, N: set<Edge>, over: set<Edge>, S: set<Edge>, c: Colors,
                   d: Colors)
    requires be in before.Keys && be in HotEdges(before)
    requires c.Keys == before.Keys + over && HotEdges(c) == HotEdges(before) + over
    requires WithColor(c, Blue) == WithColor(before, Blue) - P - over
    requires WithColor(before, Green) + N - over <= WithColor(c, Green) <= WithColor(before, Green) + N
    requires d.Keys == c.Keys + {be} + S && HotEdges(d) == HotEdges(c) + {be} + S
    requires WithColor(d, Blue) == WithColor(c, Blue) - {be} - S
    requires WithColor(d, Green) == WithColor(c, Green) + {be} - S
    ensures d.Keys == before.Keys + (over + S) && HotEdges(d) == HotEdges(before) + (over + S)
    ensures WithColor(d, Blue) == WithColor(before, Blue) - (P + {be}) - (over + S)
    ensures WithColor(before, Green) + (N + {be}) - (over + S) <= WithColor(d, Green)
    ensures WithColor(d, Green) <= WithColor(before, Green) + (N + {be})
  {
  }

  lemma ResolveYellow(L: Linked, E: set<Edge>, before: Colors, P: set<Edge>, be: Edge, c: Colors)
    requires Mirrored(L) && E == EdgesOf(L) && Known(L, before)
    requires be in WithColor(before, Blue) && be !in P && P <= WithColor(before, Blue)
    requires BluePass(L, E, before, P, c) && !(L.preds[be.snk] <= Eligible(before))
    ensures BluePass(L, E, before, P + {be}, c[be := Yellow])
  {
    GrowConfirmed(L, E, before, P, be);
    assert be in HotEdges(before);
    PaintYellow(c, be);
  }

  lemma PaintYellow(c: Colors, e: Edge)
    requires White !in c.Values && e in HotEdges(c)
    ensures var d := c[e := Yellow];
      && White !in d.Values && d.Keys == c.Keys && HotEdges(d) == HotEdges(c)
      && WithColor(d, Blue) == WithColor(c, Blue) - {e} && WithColor(d, Green) == WithColor(c, Green) - {e}
  {
    var d := c[e := Yellow];
    forall f | f in d ensures d[f] != White {
      assert f in c ==> c[f] in c.Values;
    }
  }

  // ----- what holds between rounds -----

  ghost predicate SourceRed(L: Linked, source: nat, colors: Colors)
    requires source in L.preds
  {
    exists p :: p in L.preds[source] && p in colors && colors[p] == Red
  }

  /** An edge is first green strictly after everything that enters the node it leaves. */
  ghost predicate Ordered(L: Linked, source: nat, ever: set<Edge>, stamp: map<Edge, nat>)
    requires Mirrored(L)
  {
    && stamp.Keys == ever
    && forall e, p {:trigger p in L.preds[e.src], e in ever} ::
         e in ever && e.src != source && e.src in L.preds && p in L.preds[e.src] ==> p in ever && stamp[p] < stamp[e]
  }

  /** The state at the head of the main loop. `ever` holds every edge that has been green and
      `stamp` the round in which it first was. */
  ghost predicate Round(L: Linked, E: set<Edge>, source: nat, colors: Colors, ever: set<Edge>, stamp: map<Edge, nat>,
                        round: nat)
    requires Mirrored(L) && E == EdgesOf(L) && source in L.preds
  {
    && White !in colors.Values && colors.Keys <= E && WithColor(colors, Blue) == {}
    && L.preds[source] <= colors.Keys
    && (forall e :: e in HotEdges(colors) ==> e.src == source || L.preds[e.src] <= ever)
    && ever <= HotEdges(colors)
    && (forall e :: e in ever ==> L.preds[e.snk] <= ever)
    && Ordered(L, source, ever, stamp)
    && (forall e :: e in ever ==> stamp[e] < round)
    && WithColor(colors, Green) <= ever
    && (SourceRed(L, source, colors) ==> WithColor(colors, Green) == ever)
  }

  ghost function Stamp(stamp: map<Edge, nat>, N: set<Edge>, round: nat): map<Edge, nat> {
    stamp + map e | e in N - stamp.Keys :: round
  }

  lemma FirstRound(L: Linked, E: set<Edge>, source: nat, colors: Colors)
    requires Mirrored(L) && E == EdgesOf(L) && source in L.preds
    requires colors == (map e | e in L.preds[source] :: Red) + (map e | e in L.succs[source] :: Yellow)
    ensures Round(L, E, source, colors, {}, map[], 0)
  {
    assert WithColor(colors, Green) == {};
  }

  /** One turn of the main loop, seen from its two passes. */
  ghost predicate Turn(L: Linked, E: set<Edge>, source: nat, c0: Colors, c1: Colors, c2: Colors,
                       ever: set<Edge>, stamp: map<Edge, nat>, round: nat)
    requires Mirrored(L) && E == EdgesOf(L) && source in L.preds
  {
    && Known(L, c0) && Known(L, c1)
    && Round(L, E, source, c0, ever, stamp, round)
    && YellowPass(L, E, c0, Yellows(c0), c1)
    && BluePass(L, E, c1, WithColor(c1, Blue), c2)
  }

  ghost function NewGreen(L: Linked, c1: Colors): set<Edge>
    requires Mirrored(L) && Known(L, c1)
  {
    Confirmed(L, c1, WithColor(c1, Blue))
  }

  lemma RoundsAreKnown(L: Linked, E: set<Edge>, colors: Colors)
    requires Mirrored(L) && E == EdgesOf(L) && colors.Keys <= E
    ensures Known(L, colors)
  {
  }

  /** After the first pass: blue edges were yellow, green ones are unchanged, and an edge that
      became yellow leaves a node entered only by edges that are now blue. */
  lemma AfterYellow(L: Linked, E: set<Edge>, source: nat, c0: Colors, c1: Colors,
                    ever: set<Edge>, stamp: map<Edge, nat>, round: nat)
    requires Mirrored(L) && E == EdgesOf(L) && source in L.preds && Known(L, c0)
    requires Round(L, E, source, c0, ever, stamp, round)
    requires YellowPass(L, E, c0, Yellows(c0), c1)
    ensures c1.Keys <= E && c0.Keys <= c1.Keys && HotEdges(c0) <= HotEdges(c1)
    ensures WithColor(c1, Blue) <= Yellows(c0) && WithColor(c1, Green) == WithColor(c0, Green)
    ensures forall e :: e in HotEdges(c1) - HotEdges(c0) ==> L.preds[e.src] <= WithColor(c1, Blue)
  {
    forall e | e in HotEdges(c1) - HotEdges(c0) ensures L.preds[e.src] <= WithColor(c1, Blue) {
      assert e in Raised(L, E, c0, Yellows(c0));
    }
  }

  /** The new green edges close under "enters the same sink". */
  lemma NewGreenClosed(L: Linked, E: set<Edge>, c1: Colors, e: Edge)
    requires Mirrored(L) && E == EdgesOf(L) && Known(L, c1) && e in NewGreen(L, c1)
    ensures L.preds[e.snk] <= NewGreen(L, c1) + WithColor(c1, Green)
  {
    forall p | p in L.preds[e.snk] ensures p in NewGreen(L, c1) + WithColor(c1, Green) {
      assert p.snk == e.snk;
    }
  }

  /** A node entered only by blue edges has all of them confirmed. */
  lemma AllBlueConfirmed(L: Linked, c1: Colors, n: nat)
    requires Mirrored(L) && Known(L, c1) && n in L.preds && L.preds[n] <= WithColor(c1, Blue)
    ensures L.preds[n] <= NewGreen(L, c1)
  {
  }

  lemma TurnHot(L: Linked, E: set<Edge>, source: nat, c0: Colors, c1: Colors, c2: Colors,
                ever: set<Edge>, stamp: map<Edge, nat>, round: nat)
    requires Mirrored(L) && E == EdgesOf(L) && source in L.preds && Turn(L, E, source, c0, c1, c2, ever, stamp, round)
    ensures forall e :: e in HotEdges(c2) ==> e.src == source || L.preds[e.src] <= ever + NewGreen(L, c1)
  {
    AfterYellow(L, E, source, c0, c1, ever, stamp, round);
    var N := NewGreen(L, c1);
    forall e | e in HotEdges(c2) && e.src != source ensures L.preds[e.src] <= ever + N {
      if e in HotEdges(c0) {
      } else if e in HotEdges(c1) {
        AllBlueConfirmed(L, c1, e.src);
      } else {
        assert e in Onward(L, E, N);
        var be :| be in L.preds[e.src] && be in N;
        NewGreenClosed(L, E, c1, be);
      }
    }
  }

  lemma TurnEver(L: Linked, E: set<Edge>, source: nat, c0: Colors, c1: Colors, c2: Colors,
                 ever: set<Edge>, stamp: map<Edge, nat>, round: nat)
    requires Mirrored(L) && E == EdgesOf(L) && source in L.preds && Turn(L, E, source, c0, c1, c2, ever, stamp, round)
    ensures var N := NewGreen(L, c1);
      && ever + N <= HotEdges(c2)
      && (forall e :: e in ever + N ==> L.preds[e.snk] <= ever + N)
      && WithColor(c2, Green) <= ever + N
      && N <= Yellows(c0)
  {
    AfterYellow(L, E, source, c0, c1, ever, stamp, round);
    var N := NewGreen(L, c1);
    forall e | e in ever + N ensures L.preds[e.snk] <= ever + N {
      if e in N {
        NewGreenClosed(L, E, c1, e);
      }
    }
  }

  lemma TurnStamp(L: Linked, source: nat, hot: set<Edge>, ever: set<Edge>, stamp: map<Edge, nat>, N: set<Edge>,
                  round: nat)
    requires Mirrored(L) && Ordered(L, source, ever, stamp) && (forall e :: e in ever ==> stamp[e] < round)
    requires N <= hot && forall e :: e in hot && e.src in L.preds && e.src != source ==> L.preds[e.src] <= ever
    ensures Ordered(L, source, ever + N, Stamp(stamp, N, round))
    ensures forall e :: e in ever + N ==> Stamp(stamp, N, round)[e] < round + 1
  {
    var stamp' := Stamp(stamp, N, round);
    forall e, p | e in ever + N && e.src != source && e.src in L.preds && p in L.preds[e.src]
      ensures p in ever + N && stamp'[p] < stamp'[e]
    {
      if e !in ever {
        assert e in hot && p in ever;
      }
    }
  }

  /** While the source still has a red predecessor no green edge is painted over. */
  lemma GreenIsStable(L: Linked, E: set<Edge>, source: nat, c0: Colors, c1: Colors, c2: Colors,
                      ever: set<Edge>, stamp: map<Edge, nat>, round: nat)
    requires Mirrored(L) && E == EdgesOf(L) && source in L.preds && Turn(L, E, source, c0, c1, c2, ever, stamp, round)
    requires SourceRed(L, source, c2)
    ensures SourceRed(L, source, c0)
    ensures WithColor(c0, Green) <= WithColor(c2, Green) == ever + NewGreen(L, c1)
  {
    TurnFacts(L, E, source, c0, c1, c2, ever, stamp, round);
    var p :| p in L.preds[source] && p in c2 && c2[p] == Red;
    RedWasRed(c0, c1, c2, p);
    assert SourceRed(L, source, c0);
    RedIsNotEligible(L, source, c1, c2, p);
    StableGreen(L, E, source, HotEdges(c0), ever, NewGreen(L, c1), WithColor(c2, Green));
  }

  lemma StableGreen(L: Linked, E: set<Edge>, source: nat, hot: set<Edge>, ever: set<Edge>, N: set<Edge>,
                    green: set<Edge>)
    requires Mirrored(L) && E == EdgesOf(L) && ever + N <= hot <= E && ever !! N
    requires forall e :: e in hot ==> e.src == source || L.preds[e.src] <= ever
    requires forall be :: be in N ==> be.snk != source
    requires ever + N - Onward(L, E, N) <= green <= ever + N
    ensures ever <= green == ever + N
  {
    NotPaintedOver(L, E, source, hot, ever, N);
  }

  /** What stability needs to know about one turn. */
  lemma TurnFacts(L: Linked, E: set<Edge>, source: nat, c0: Colors, c1: Colors, c2: Colors,
                  ever: set<Edge>, stamp: map<Edge, nat>, round: nat)
    requires Mirrored(L) && E == EdgesOf(L) && source in L.preds && Turn(L, E, source, c0, c1, c2, ever, stamp, round)
    ensures L.preds[source] <= c0.Keys && WithColor(c0, Blue) == {} && White !in c0.Values
    ensures HotEdges(c0) <= HotEdges(c1) <= HotEdges(c2)
    ensures ever + NewGreen(L, c1) <= HotEdges(c0) <= E
    ensures WithColor(c0, Green) <= ever && WithColor(c0, Green) !! NewGreen(L, c1)
    ensures SourceRed(L, source, c0) ==> WithColor(c0, Green) == ever
    ensures forall e :: e in HotEdges(c0) ==> e.src == source || L.preds[e.src] <= ever
    ensures WithColor(c0, Green) + NewGreen(L, c1) - Onward(L, E, NewGreen(L, c1)) <= WithColor(c2, Green)
              <= WithColor(c0, Green) + NewGreen(L, c1)
  {
    AfterYellow(L, E, source, c0, c1, ever, stamp, round);
    assert WithColor(c1, Green) !! WithColor(c1, Blue);
  }

  lemma RedWasRed(c0: Colors, c1: Colors, c2: Colors, p: Edge)
    requires p in c0 && WithColor(c0, Blue) == {} && White !in c0.Values
    requires HotEdges(c0) <= HotEdges(c1) <= HotEdges(c2)
    requires p in c2 && c2[p] == Red
    ensures c0[p] == Red && p !in HotEdges(c1)
  {
    assert p !in HotEdges(c2);
    assert c0[p] in c0.Values;
  }

  lemma NotPaintedOver(L: Linked, E: set<Edge>, source: nat, hot: set<Edge>, ever: set<Edge>, N: set<Edge>)
    requires Mirrored(L) && E == EdgesOf(L) && ever + N <= hot <= E && ever !! N
    requires forall e :: e in hot ==> e.src == source || L.preds[e.src] <= ever
    requires forall be :: be in N ==> be.snk != source
    ensures Onward(L, E, N) !! ever + N
  {
    forall e | e in ever + N ensures L.preds[e.src] !! N {
      assert e in hot;
    }
  }

  lemma RedIsNotEligible(L: Linked, source: nat, c1: Colors, c2: Colors, p: Edge)
    requires Mirrored(L) && Known(L, c1) && source in L.preds
    requires p in L.preds[source] && p !in HotEdges(c1)
    ensures forall be :: be in NewGreen(L, c1) ==> be.snk != source
  {
  }

  /** A turn of the main loop re-establishes the invariant, and edges at or above yellow stay there. */
  lemma TurnKeeps(L: Linked, E: set<Edge>, source: nat, c0: Colors, c1: Colors, c2: Colors,
                  ever: set<Edge>, stamp: map<Edge, nat>, round: nat)
    requires Mirrored(L) && E == EdgesOf(L) && source in L.preds && Turn(L, E, source, c0, c1, c2, ever, stamp, round)
    ensures Round(L, E, source, c2, ever + NewGreen(L, c1), Stamp(stamp, NewGreen(L, c1), round), round + 1)
    ensures HotEdges(c0) <= HotEdges(c2)
  {
    AfterYellow(L, E, source, c0, c1, ever, stamp, round);
    TurnHot(L, E, source, c0, c1, c2, ever, stamp, round);
    TurnEver(L, E, source, c0, c1, c2, ever, stamp, round);
    TurnStamp(L, source, HotEdges(c0), ever, stamp, NewGreen(L, c1), round);
    if SourceRed(L, source, c2) {
      GreenIsStable(L, E, source, c0, c1, c2, ever, stamp, round);
    }
  }

  // ----- what the colours mean -----

  /** As long as the source has a red edge, the green edges are those into explained nodes, and
      what is at least yellow leaves them or the source. */
  ghost predicate Levelled(L: Linked, source: nat, colors: Colors, round: nat)
    requires Mirrored(L) && source in L.preds
  {
    var S := Explained(L, source, round);
    && (SourceRed(L, source, colors) <==> Open(L, source, S))
    && (SourceRed(L, source, colors) ==>
          WithColor(colors, Green) == EdgesInto(L, S) && HotEdges(colors) == EdgesFrom(L, S + {source}))
  }

  lemma FirstLevelled(L: Linked, E: set<Edge>, source: nat, colors: Colors)
    requires Mirrored(L) && E == EdgesOf(L) && source in L.preds
    requires colors == (map e | e in L.preds[source] :: Red) + (map e | e in L.succs[source] :: Yellow)
    ensures Levelled(L, source, colors, 0)
  {
    LinksAreEdges(L, source);
    assert {} + {source} == {source};
    assert HotEdges(colors) == L.succs[source] == EdgesFrom(L, {source});
    assert WithColor(colors, Green) == {} == EdgesInto(L, {});
    RedIsNotHot(L, source, colors, {});
  }

  /** The source has a red edge exactly when it is open. */
  lemma RedIsNotHot(L: Linked, source: nat, colors: Colors, S: set<nat>)
    requires Mirrored(L) && source in L.preds && L.preds[source] <= colors.Keys && White !in colors.Values
    requires HotEdges(colors) == EdgesFrom(L, S + {source})
    ensures SourceRed(L, source, colors) <==> Open(L, source, S)
  {
    forall p | p in L.preds[source] ensures p in colors && (colors[p] == Red <==> p.src !in S + {source}) {
      assert colors[p] in colors.Values;
      assert p in EdgesOf(L);
      assert p in HotEdges(colors) <==> p in EdgesFrom(L, S + {source});
    }
  }

  /** The nodes entered by yellow edges only. */
  ghost predicate Ripe(L: Linked, yellow: set<Edge>, layer: set<nat>) {
    forall n {:trigger n in layer} :: n in L.preds ==> (n in layer <==> L.preds[n] != {} && L.preds[n] <= yellow)
  }

  /** One round explains one more layer of nodes. */
  lemma LayerExplained(L: Linked, source: nat, S: set<nat>, layer: set<nat>, yellow: set<Edge>, hot: set<Edge>)
    requires Mirrored(L) && hot == EdgesFrom(L, S + {source}) && yellow == hot - EdgesInto(L, S)
    requires S <= OnlyFrom(L, source, S) && layer == OnlyFrom(L, source, S) - S
    ensures Ripe(L, yellow, layer)
  {
    forall n | n in L.preds ensures n in layer <==> L.preds[n] != {} && L.preds[n] <= yellow {
      assert forall e :: e in L.preds[n] ==> e in EdgesOf(L) && e.snk == n;
      assert From(L.preds[n], S + {source}) <==> L.preds[n] <= hot;
    }
  }

  /** The edges a round confirms are those into the new layer. */
  lemma LayerConfirmed(L: Linked, E: set<Edge>, S: set<nat>, layer: set<nat>, c0: Colors, c1: Colors)
    requires Mirrored(L) && E == EdgesOf(L) && Known(L, c0) && Known(L, c1) && layer <= L.preds.Keys
    requires YellowPass(L, E, c0, Yellows(c0), c1) && WithColor(c0, Blue) == {} && HotEdges(c0) <= E
    requires Ripe(L, Yellows(c0), layer)
    ensures NewGreen(L, c1) == EdgesInto(L, layer)
  {
    var blue := WithColor(c1, Blue);
    forall e | e in NewGreen(L, c1) ensures e in EdgesInto(L, layer) {
      assert e in L.preds[e.snk] && e in E;
      assert L.preds[e.snk] <= blue + WithColor(c0, Green);
      assert L.preds[e.snk] <= WithColor(c0, Red) + Yellows(c0);
      assert L.preds[e.snk] <= Yellows(c0);
      assert e.snk in layer;
    }
    forall e | e in EdgesInto(L, layer) ensures e in NewGreen(L, c1) {
      assert e in E && e in L.preds[e.snk] && e.snk in layer;
      forall p | p in L.preds[e.snk] ensures p in blue {
        assert p.snk == e.snk && p in Yellows(c0);
      }
    }
  }

  /** What is at least yellow after a round leaves an explained node or the source. */
  lemma LayerHot(L: Linked, E: set<Edge>, source: nat, S: set<nat>, layer: set<nat>, c0: Colors, c1: Colors, c2: Colors)
    requires Mirrored(L) && E == EdgesOf(L) && Known(L, c0) && Known(L, c1) && layer <= L.preds.Keys
    requires YellowPass(L, E, c0, Yellows(c0), c1) && BluePass(L, E, c1, WithColor(c1, Blue), c2)
    requires Ripe(L, Yellows(c0), layer)
    requires NewGreen(L, c1) == EdgesInto(L, layer) && HotEdges(c0) == EdgesFrom(L, S + {source})
    ensures HotEdges(c2) == EdgesFrom(L, S + layer + {source})
  {
    var raised, onward := Raised(L, E, c0, Yellows(c0)), Onward(L, E, EdgesInto(L, layer));
    forall e | e in E ensures e in raised + onward <==> e.src in layer {
      assert e.src in L.preds;
      if e in onward {
        var p :| p in L.preds[e.src] && p in EdgesInto(L, layer);
        assert p.snk == e.src;
      }
    }
    assert HotEdges(c2) == HotEdges(c0) + raised + onward;
    forall e ensures e in HotEdges(c2) <==> e in EdgesFrom(L, S + layer + {source}) {
      assert e in raised + onward ==> e in E;
    }
  }

  lemma PassesAdd(L: Linked, E: set<Edge>, source: nat, S: set<nat>, layer: set<nat>, c0: Colors, c1: Colors,
                  c2: Colors)
    requires Mirrored(L) && E == EdgesOf(L) && Known(L, c0) && Known(L, c1) && WithColor(c0, Blue) == {}
    requires YellowPass(L, E, c0, Yellows(c0), c1) && BluePass(L, E, c1, WithColor(c1, Blue), c2)
    requires layer <= L.preds.Keys
    requires WithColor(c0, Green) == EdgesInto(L, S) && HotEdges(c0) == EdgesFrom(L, S + {source})
    requires Ripe(L, Yellows(c0), layer)
    ensures HotEdges(c2) == EdgesFrom(L, S + layer + {source})
    ensures WithColor(c0, Green) + NewGreen(L, c1) == EdgesInto(L, S + layer)
  {
    LayerConfirmed(L, E, S, layer, c0, c1);
    LayerHot(L, E, source, S, layer, c0, c1, c2);
    assert EdgesInto(L, S) + EdgesInto(L, layer) == EdgesInto(L, S + layer);
  }

  /** Both passes while the source is still open: one more layer. */
  lemma PassesLayer(L: Linked, E: set<Edge>, source: nat, S: set<nat>, S': set<nat>, c0: Colors, c1: Colors, c2: Colors)
    requires Mirrored(L) && E == EdgesOf(L) && Known(L, c0) && Known(L, c1) && WithColor(c0, Blue) == {}
    requires YellowPass(L, E, c0, Yellows(c0), c1) && BluePass(L, E, c1, WithColor(c1, Blue), c2)
    requires WithColor(c0, Green) == EdgesInto(L, S) && HotEdges(c0) == EdgesFrom(L, S + {source})
    requires S <= S' <= L.preds.Keys && Ripe(L, Yellows(c0), S' - S)
    ensures HotEdges(c2) == EdgesFrom(L, S' + {source})
    ensures WithColor(c0, Green) + NewGreen(L, c1) == EdgesInto(L, S')
  {
    assert S + (S' - S) == S';
    PassesAdd(L, E, source, S, S' - S, c0, c1, c2);
  }

  lemma LayerRipe(L: Linked, source: nat, S: set<nat>, S': set<nat>, c0: Colors)
    requires Mirrored(L) && WithColor(c0, Blue) == {} && S <= S' && S' == OnlyFrom(L, source, S)
    requires WithColor(c0, Green) == EdgesInto(L, S) && HotEdges(c0) == EdgesFrom(L, S + {source})
    ensures Ripe(L, Yellows(c0), S' - S)
  {
    YellowIsHotNotGreen(c0);
    LayerExplained(L, source, S, S' - S, Yellows(c0), HotEdges(c0));
  }

  lemma YellowIsHotNotGreen(c: Colors)
    requires WithColor(c, Blue) == {}
    ensures Yellows(c) == HotEdges(c) - WithColor(c, Green)
  {
    forall e | e in HotEdges(c) - WithColor(c, Green) ensures e in Yellows(c) {
      assert e !in WithColor(c, Blue);
    }
  }

  /** What a round leaves of red and green. */
  lemma TurnRed(L: Linked, E: set<Edge>, source: nat, c0: Colors, c1: Colors, c2: Colors,
                ever: set<Edge>, stamp: map<Edge, nat>, round: nat)
    requires Mirrored(L) && E == EdgesOf(L) && source in L.preds && Turn(L, E, source, c0, c1, c2, ever, stamp, round)
    ensures L.preds[source] <= c2.Keys && White !in c2.Values
    ensures SourceRed(L, source, c2) ==>
      SourceRed(L, source, c0) && WithColor(c2, Green) == WithColor(c0, Green) + NewGreen(L, c1)
  {
    TurnKeeps(L, E, source, c0, c1, c2, ever, stamp, round);
    if SourceRed(L, source, c2) {
      GreenIsStable(L, E, source, c0, c1, c2, ever, stamp, round);
    }
  }

  lemma LevelUp(L: Linked, source: nat, c0: Colors, c2: Colors, round: nat)
    requires Mirrored(L) && source in L.preds && Levelled(L, source, c0, round)
    requires L.preds[source] <= c2.Keys && White !in c2.Values
    requires (SourceRed(L, source, c2) ==> SourceRed(L, source, c0))
    requires SourceRed(L, source, c0) ==> HotEdges(c2) == EdgesFrom(L, Explained(L, source, round + 1) + {source})
    requires SourceRed(L, source, c2) ==> WithColor(c2, Green) == EdgesInto(L, Explained(L, source, round + 1))
    ensures Levelled(L, source, c2, round + 1)
  {
    var S, S' := Explained(L, source, round), Explained(L, source, round + 1);
    if SourceRed(L, source, c0) {
      RedIsNotHot(L, source, c2, S');
    } else {
      ExplainedGrows(L, source, round, round + 1);
      FromMore(L.preds[source], S + {source}, S' + {source});
    }
  }

  /** A round keeps what the colours mean. */
  lemma TurnLevelled(L: Linked, E: set<Edge>, source: nat, c0: Colors, c1: Colors, c2: Colors,
                     ever: set<Edge>, stamp: map<Edge, nat>, round: nat)
    requires Mirrored(L) && E == EdgesOf(L) && source in L.preds && Turn(L, E, source, c0, c1, c2, ever, stamp, round)
    requires Levelled(L, source, c0, round)
    ensures Levelled(L, source, c2, round + 1)
  {
    ExplainedGrows(L, source, round, round + 1);
    TurnRed(L, E, source, c0, c1, c2, ever, stamp, round);
    if SourceRed(L, source, c0) {
      var S, S' := Explained(L, source, round), Explained(L, source, round + 1);
      LayerRipe(L, source, S, S', c0);
      PassesLayer(L, E, source, S, S', c0, c1, c2);
    }
    LevelUp(L, source, c0, c2, round);
  }

  // ----- reading a region off the green edges -----

  function EndsOf(edges: set<Edge>): set<nat> {
    (set e | e in edges :: e.src) + (set e | e in edges :: e.snk)
  }

  /** The nodes of the subgraph with a successor edge outside it. */
  function ExitNodes(L: Linked, nodes: set<nat>, edges: set<Edge>): set<nat>
    requires Mirrored(L) && nodes <= L.succs.Keys
  {
    set n | n in nodes && !(L.succs[n] <= edges)
  }

  /** When the green edges make up a region that ends in t. */
  ghost predicate Closes(L: Linked, greens: set<Edge>, colors: Colors, source: nat, t: nat)
    requires Mirrored(L) && source in L.preds && EndsOf(greens) <= L.succs.Keys
  {
    var nodes := EndsOf(greens);
    && |greens| >= 3
    && (forall n :: n in nodes ==> L.preds[n] <= colors.Keys)
    && source in nodes && SourceRed(L, source, colors)
    && ExitNodes(L, nodes, greens) == {t}
    && (forall n :: n in nodes ==> L.preds[n] != {} && L.succs[n] != {})
    && (forall n :: n in nodes && n != source ==> L.preds[n] !! WithColor(colors, Red))
  }

  /** The tests of the green subgraph, in the order they are made. */
  method GreenEdgeDFS(greens: set<Edge>, colors: Colors, L: Linked, source: nat) returns (sub: Net, sink: Option<nat>)
    requires Mirrored(L) && source in L.preds && EndsOf(greens) <= L.succs.Keys
    ensures sink.Some? <==> exists t :: Closes(L, greens, colors, source, t)
    ensures sink.Some? ==> Closes(L, greens, colors, source, sink.value) && sub == Net(EndsOf(greens), greens)
    ensures sink.None? ==> sub == EmptyNet
  {
    sub, sink := EmptyNet, None;
    var nodes := EndsOf(greens);
    if |greens| < 3 {
      return;
    }
    if exists n :: n in nodes && !(L.preds[n] <= colors.Keys) {
      return;
    }
    var entranceNodes := set n | n in nodes && n == source &&
                                 exists p :: p in L.preds[n] && p in colors && colors[p] == Red;
    var exitNodes := ExitNodes(L, nodes, greens);
    assert entranceNodes <= {source};
    if |entranceNodes| != 1 || |exitNodes| != 1 {
      assert source !in entranceNodes || forall t :: exitNodes != {t} by {
        if source in entranceNodes {
          assert entranceNodes == {source};
        }
      }
      return;
    }
    assert entranceNodes != {};
    if exists n :: n in nodes && (L.preds[n] == {} || L.succs[n] == {}) {
      return;
    }
    if exists n :: n in nodes && n != source && exists p :: p in L.preds[n] && p in colors && colors[p] == Red {
      return;
    }
    var t :| t in exitNodes;
    Only(exitNodes, t);
    assert source in entranceNodes;
    forall n | n in nodes && n != source ensures L.preds[n] !! WithColor(colors, Red) {
    }
    assert Closes(L, greens, colors, source, t);
    sub := Net(nodes, greens);
    sink := Some(t);
  }

  /** The green edges of a round in which the source is still entered by a red edge. */
  ghost predicate GreenState(L: Linked, E: set<Edge>, source: nat, G: set<Edge>, stamp: map<Edge, nat>, round: nat)
    requires Mirrored(L) && E == EdgesOf(L) && source in L.preds
  {
    && G <= E && Ordered(L, source, G, stamp)
    && (forall e :: e in G ==> e.src == source || L.preds[e.src] <= G)
    && (forall e :: e in G ==> L.preds[e.snk] <= G && e.snk != source)
    && (forall e :: e in G ==> stamp[e] < round)
  }

  lemma RoundIsGreenState(L: Linked, E: set<Edge>, source: nat, colors: Colors, ever: set<Edge>,
                          stamp: map<Edge, nat>, round: nat)
    requires Mirrored(L) && E == EdgesOf(L) && source in L.preds
    requires Round(L, E, source, colors, ever, stamp, round) && SourceRed(L, source, colors)
    ensures GreenState(L, E, source, WithColor(colors, Green), stamp, round)
  {
    var G := WithColor(colors, Green);
    assert G == ever;
    var p :| p in L.preds[source] && p in colors && colors[p] == Red;
    assert p !in G;
  }

  /** Such green edges are never cyclic: the cycle test on the found subgraph cannot fire. */
  lemma GreensAreAcyclic(L: Linked, E: set<Edge>, source: nat, G: set<Edge>, stamp: map<Edge, nat>, round: nat)
    requires Mirrored(L) && E == EdgesOf(L) && source in L.preds && GreenState(L, E, source, G, stamp, round)
    ensures !Cyclic(G)
  {
    forall e, f | e in G && f in G && e.snk == f.src ensures stamp[e] < stamp[f] {
      assert e in L.preds[f.src];
    }
    EdgeRankedIsAcyclic(G, (e: Edge) => if e in stamp then stamp[e] else 0);
  }

  lemma FromSource(L: Linked, E: set<Edge>, source: nat, G: set<Edge>, stamp: map<Edge, nat>, round: nat, e: Edge)
    requires Mirrored(L) && E == EdgesOf(L) && source in L.preds && GreenState(L, E, source, G, stamp, round)
    requires forall n :: n in EndsOf(G) ==> n in L.preds && L.preds[n] != {}
    requires e in G
    ensures Reach(G, source, e.src) && Reach(G, source, e.snk)
    decreases stamp[e]
  {
    if e.src == source {
      ReachRefl(G, source);
    } else {
      assert e.src in EndsOf(G);
      var p :| p in L.preds[e.src];
      FromSource(L, E, source, G, stamp, round, p);
    }
    ReachSnoc(G, source, e);
  }

  lemma ToSink(L: Linked, E: set<Edge>, source: nat, G: set<Edge>, stamp: map<Edge, nat>, round: nat, e: Edge, t: nat)
    requires Mirrored(L) && E == EdgesOf(L) && source in L.preds && GreenState(L, E, source, G, stamp, round)
    requires EndsOf(G) <= L.succs.Keys && ExitNodes(L, EndsOf(G), G) == {t}
    requires forall n :: n in EndsOf(G) ==> L.succs[n] != {}
    requires e in G
    ensures Reach(G, e.snk, t) && Reach(G, e.src, t)
    decreases round - stamp[e]
  {
    if e.snk == t {
      ReachRefl(G, t);
    } else {
      assert e.snk in EndsOf(G) && e.snk !in ExitNodes(L, EndsOf(G), G);
      var f :| f in L.succs[e.snk];
      assert e in L.preds[f.src];
      ToSink(L, E, source, G, stamp, round, f, t);
    }
    ReachCons(G, e, t);
  }

  /** Whatever passes the tests of GreenEdgeDFS is a region. */
  lemma GreensFormRegion(L: Linked, E: set<Edge>, source: nat, colors: Colors,
                         ever: set<Edge>, stamp: map<Edge, nat>, round: nat, t: nat)
    requires Mirrored(L) && E == EdgesOf(L) && source in L.preds
    requires Round(L, E, source, colors, ever, stamp, round)
    requires EndsOf(WithColor(colors, Green)) <= L.succs.Keys
    requires Closes(L, WithColor(colors, Green), colors, source, t)
    ensures var G := WithColor(colors, Green); Region(E, Net(EndsOf(G), G), source, t)
  {
    var G := WithColor(colors, Green);
    RoundIsGreenState(L, E, source, colors, ever, stamp, round);
    assert G != {};
    GreenRegion(L, E, source, G, stamp, round, t);
  }

  lemma GreenRegion(L: Linked, E: set<Edge>, source: nat, G: set<Edge>, stamp: map<Edge, nat>, round: nat, t: nat)
    requires Mirrored(L) && E == EdgesOf(L) && source in L.preds && GreenState(L, E, source, G, stamp, round)
    requires EndsOf(G) <= L.succs.Keys && ExitNodes(L, EndsOf(G), G) == {t}
    requires G != {} && source in EndsOf(G)
    requires forall n :: n in EndsOf(G) ==> L.preds[n] != {} && L.succs[n] != {}
    ensures Region(E, Net(EndsOf(G), G), source, t)
  {
    GreensAreAcyclic(L, E, source, G, stamp, round);
    GreensConnect(L, E, source, G, stamp, round, t);
    assert t in ExitNodes(L, EndsOf(G), G);
    SinkIsNotSource(L, E, source, G, stamp, round, t);
    GreenBoundary(L, E, source, G, stamp, round, t);
  }

  lemma GreensConnect(L: Linked, E: set<Edge>, source: nat, G: set<Edge>, stamp: map<Edge, nat>, round: nat, t: nat)
    requires Mirrored(L) && E == EdgesOf(L) && source in L.preds && GreenState(L, E, source, G, stamp, round)
    requires EndsOf(G) <= L.succs.Keys && ExitNodes(L, EndsOf(G), G) == {t}
    requires forall n :: n in EndsOf(G) ==> L.preds[n] != {} && L.succs[n] != {}
    ensures forall n :: n in EndsOf(G) ==> Reach(G, source, n) && Reach(G, n, t)
  {
    forall n | n in EndsOf(G) ensures Reach(G, source, n) && Reach(G, n, t) {
      var e :| e in G && (e.src == n || e.snk == n);
      FromSource(L, E, source, G, stamp, round, e);
      ToSink(L, E, source, G, stamp, round, e, t);
    }
  }

  lemma SinkIsNotSource(L: Linked, E: set<Edge>, source: nat, G: set<Edge>, stamp: map<Edge, nat>, round: nat, t: nat)
    requires Mirrored(L) && E == EdgesOf(L) && source in L.preds && GreenState(L, E, source, G, stamp, round)
    requires G != {} && forall n :: n in EndsOf(G) ==> Reach(G, n, t)
    ensures t != source
  {
    var e :| e in G;
    assert e.snk in EndsOf(G) && e.snk != source;
    if t == source {
      ReachIsPlus(G, e.snk, source);
      var f := PlusLast(G, e.snk, source);
    }
  }

  lemma GreenBoundary(L: Linked, E: set<Edge>, source: nat, G: set<Edge>, stamp: map<Edge, nat>, round: nat, t: nat)
    requires Mirrored(L) && E == EdgesOf(L) && source in L.preds && GreenState(L, E, source, G, stamp, round)
    requires EndsOf(G) <= L.succs.Keys && ExitNodes(L, EndsOf(G), G) == {t}
    ensures forall e {:trigger e in E} :: e in E && e.snk in EndsOf(G) && e !in G ==> e.snk == source
    ensures forall e {:trigger e in E} :: e in E && e.src in EndsOf(G) && e !in G ==> e.src == t
  {
    forall e | e in E && e.snk in EndsOf(G) && e !in G ensures e.snk == source {
      var f :| f in G && (f.src == e.snk || f.snk == e.snk);
      assert e in L.preds[e.snk];
    }
    forall e | e in E && e.src in EndsOf(G) && e !in G ensures e.src == t {
      assert e in L.succs[e.src];
      assert e.src in ExitNodes(L, EndsOf(G), G);
    }
  }

  // ----- which region is found -----

  /** Somewhere an explained node is entered from the source itself. */
  lemma SourceIsEnd(L: Linked, source: nat, k: nat)
    requires Mirrored(L) && source in L.preds && Explained(L, source, k) != {}
    ensures EndsOf(EdgesInto(L, Explained(L, source, k))) == Explained(L, source, k) + {source}
  {
    var S := Explained(L, source, k);
    if Explained(L, source, 1) == {} {
      StuckForGood(L, source, 0, k);
    }
    ExplainedGrows(L, source, 1, k);
    var m :| m in Explained(L, source, 1);
    var f :| f in L.preds[m];
    assert f in EdgesOf(L) && f.src == source && f in EdgesInto(L, S);
    ExplainedGrows(L, source, k - 1, k);
    forall n | n in S ensures n in EndsOf(EdgesInto(L, S)) {
      var e :| e in L.preds[n];
      assert e in EdgesOf(L) && e.snk == n && e in EdgesInto(L, S);
    }
    forall e | e in EdgesInto(L, S) ensures e.src in S + {source} && e.snk in S {
      assert e in L.preds[e.snk];
      assert From(L.preds[e.snk], Explained(L, source, k - 1) + {source});
    }
  }

  /** The tests on the green edges are about the explained nodes. */
  lemma ClosesMeans(L: Linked, E: set<Edge>, source: nat, colors: Colors, ever: set<Edge>, stamp: map<Edge, nat>,
                    round: nat, t: nat)
    requires Mirrored(L) && E == EdgesOf(L) && source in L.preds
    requires Round(L, E, source, colors, ever, stamp, round) && Levelled(L, source, colors, round)
    requires EndsOf(WithColor(colors, Green)) <= L.succs.Keys
    ensures Closes(L, WithColor(colors, Green), colors, source, t) <==> ClosesAt(L, source, round, t)
  {
    var S := Explained(L, source, round);
    if SourceRed(L, source, colors) && |EdgesInto(L, S)| >= 3 {
      assert S != {} by {
        assert EdgesInto(L, {}) == {};
      }
      SourceIsEnd(L, source, round);
      AllEntered(L, source, round);
      ClosesOn(L, source, colors, S, t);
    }
  }

  lemma AllEntered(L: Linked, source: nat, k: nat)
    requires Mirrored(L)
    ensures forall n :: n in Explained(L, source, k) ==> L.preds[n] != {}
  {
  }

  lemma ClosesOn(L: Linked, source: nat, colors: Colors, S: set<nat>, t: nat)
    requires Mirrored(L) && source in L.preds && S <= L.preds.Keys
    requires SourceRed(L, source, colors) && L.preds[source] <= colors.Keys
    requires WithColor(colors, Green) == EdgesInto(L, S)
    requires EndsOf(EdgesInto(L, S)) == S + {source} && forall n :: n in S ==> L.preds[n] != {}
    ensures Closes(L, EdgesInto(L, S), colors, source, t) <==>
      |EdgesInto(L, S)| >= 3 && (forall n :: n in S + {source} ==> L.succs[n] != {}) && LeavingAt(L, S, source) == {t}
  {
    GreenEnds(L, source, colors, S);
    TestsLeft(L, EdgesInto(L, S), colors, source, t, S + {source});
    assert ExitNodes(L, S + {source}, EdgesInto(L, S)) == LeavingAt(L, S, source);
  }

  /** The tests that can still fail. */
  lemma TestsLeft(L: Linked, G: set<Edge>, colors: Colors, source: nat, t: nat, nodes: set<nat>)
    requires Mirrored(L) && source in L.preds && nodes == EndsOf(G) && source in nodes && nodes <= L.succs.Keys
    requires SourceRed(L, source, colors)
    requires forall n :: n in nodes ==> L.preds[n] <= colors.Keys && L.preds[n] != {}
    requires forall n :: n in nodes && n != source ==> L.preds[n] !! WithColor(colors, Red)
    ensures Closes(L, G, colors, source, t) <==>
      |G| >= 3 && (forall n :: n in nodes ==> L.succs[n] != {}) && ExitNodes(L, nodes, G) == {t}
  {
  }

  lemma GreenEnds(L: Linked, source: nat, colors: Colors, S: set<nat>)
    requires Mirrored(L) && source in L.preds && S <= L.preds.Keys
    requires SourceRed(L, source, colors) && L.preds[source] <= colors.Keys
    requires WithColor(colors, Green) == EdgesInto(L, S)
    requires forall n :: n in S ==> L.preds[n] != {}
    ensures forall n :: n in S + {source} ==> L.preds[n] <= colors.Keys && L.preds[n] != {}
    ensures forall n :: n in S ==> L.preds[n] !! WithColor(colors, Red)
  {
    forall n | n in S ensures L.preds[n] <= WithColor(colors, Green) {
      forall e | e in L.preds[n] ensures e in EdgesInto(L, S) {
        assert e in EdgesOf(L) && e.snk == n;
      }
    }
  }

  /** The search gets as far as round k, and there the explained edges close. */
  ghost predicate InTime(L: Linked, source: nat, k: nat, t: nat)
    requires Mirrored(L) && source in L.preds
  {
    Early(L, source, k) && ClosesAt(L, source, k, t)
  }

  ghost predicate Early(L: Linked, source: nat, k: nat)
    requires Mirrored(L)
  {
    k > 0 && |EdgesInto(L, Explained(L, source, k - 1))| < MAX_BOTTLENECK_SIZE
  }

  /** The edges explained in k rounds, and what they join. */
  function ExplainedNet(L: Linked, source: nat, k: nat): Net
    requires Mirrored(L)
  {
    Net(Explained(L, source, k) + {source}, EdgesInto(L, Explained(L, source, k)))
  }

  ghost predicate NotBefore(L: Linked, source: nat, k: nat)
    requires Mirrored(L) && source in L.preds
  {
    forall j: nat, u :: j < k ==> !ClosesAt(L, source, j, u)
  }

  /** The first round in which the explained edges close decides. */
  ghost predicate Outcome(L: Linked, source: nat, sub: Net, sink: Option<nat>)
    requires Mirrored(L) && source in L.preds
  {
    match sink
    case None => sub == EmptyNet && forall k, t :: !InTime(L, source, k, t)
    case Some(t) => exists k :: InTime(L, source, k, t) && NotBefore(L, source, k) && sub == ExplainedNet(L, source, k)
  }

  lemma OpenBefore(L: Linked, source: nat, j: nat, k: nat)
    requires Mirrored(L) && source in L.preds && j <= k && Open(L, source, Explained(L, source, k))
    ensures Open(L, source, Explained(L, source, j))
  {
    ExplainedGrows(L, source, j, k);
    FromMore(L.preds[source], Explained(L, source, j) + {source}, Explained(L, source, k) + {source});
  }

  /** Once the source is explained, or nothing new is, no later round closes. */
  lemma NotLater(L: Linked, source: nat, r: nat, k: nat, t: nat)
    requires Mirrored(L) && source in L.preds && r < k && !ClosesAt(L, source, r, t)
    requires !Open(L, source, Explained(L, source, r + 1)) || Stuck(L, source, Explained(L, source, r))
    ensures !ClosesAt(L, source, k, t)
  {
    if Stuck(L, source, Explained(L, source, r)) {
      StuckForGood(L, source, r, k);
    } else if Open(L, source, Explained(L, source, k)) {
      OpenBefore(L, source, r + 1, k);
    }
  }

  lemma NoneLater(L: Linked, source: nat, r: nat)
    requires Mirrored(L) && source in L.preds && NotBefore(L, source, r + 1)
    requires !Open(L, source, Explained(L, source, r + 1)) || Stuck(L, source, Explained(L, source, r))
    ensures forall k, t :: !InTime(L, source, k, t)
  {
    forall k: nat, t: nat ensures !InTime(L, source, k, t) {
      if k > r {
        NotLater(L, source, r, k, t);
      }
    }
  }

  /** The search is given up with too many green edges. */
  lemma TooManyLater(L: Linked, source: nat, r: nat)
    requires Mirrored(L) && source in L.preds && NotBefore(L, source, r + 1)
    requires |EdgesInto(L, Explained(L, source, r))| >= MAX_BOTTLENECK_SIZE
    ensures forall k, t :: !InTime(L, source, k, t)
  {
    forall k: nat | r < k ensures !Early(L, source, k) {
      IntoGrows(L, source, r, k - 1);
    }
    forall k: nat, t: nat ensures !InTime(L, source, k, t) {
      if k <= r {
        assert !ClosesAt(L, source, k, t);
      } else {
        assert !Early(L, source, k);
      }
    }
  }

  /** No region from the source is worth looking for, or all of those are too large. */
  ghost predicate NoneEnclosed(L: Linked, source: nat)
    requires Mirrored(L) && source in L.preds
  {
    forall R, t :: Enclosed(L, source, R, t) ==> |R.edges| > MAX_BOTTLENECK_SIZE
  }

  /** The outcome in terms of regions. */
  lemma OutcomeIsSmallest(L: Linked, source: nat, sub: Net, sink: Option<nat>)
    requires Mirrored(L) && source in L.preds && Outcome(L, source, sub, sink)
    ensures sink.None? ==> NoneEnclosed(L, source)
    ensures sink.Some? ==> forall R, t :: Enclosed(L, source, R, t) ==> sub.nodes <= R.nodes
  {
    forall R, t | Enclosed(L, source, R, t)
      ensures if sink.None? then |R.edges| > MAX_BOTTLENECK_SIZE else sub.nodes <= R.nodes
    {
      if sink.None? {
        var k := RegionComesUp(L, source, R, t);
        assert !InTime(L, source, k, t);
      } else {
        var k :| InTime(L, source, k, sink.value) && NotBefore(L, source, k) && sub == ExplainedNet(L, source, k);
        FirstIsSmallest(L, source, k, R, t);
      }
    }
  }

  lemma ClosedIsEnclosed(L: Linked, source: nat, k: nat, t: nat)
    requires Mirrored(L) && source in L.preds && ClosesAt(L, source, k, t)
    requires Region(EdgesOf(L), ExplainedNet(L, source, k), source, t)
    ensures Enclosed(L, source, ExplainedNet(L, source, k), t)
  {
    var S := Explained(L, source, k);
    assert S + {source} + {source} == S + {source};
    assert t in LeavingAt(L, S, source);
  }

  /** FindNewSubgraph: colour outwards from the source until the green edges close a region. What
      is found is the smallest region enclosed by the source, and there is none to be found only
      if every one is too large. */
  method FindNewSubgraph(L: Linked, source: nat) returns (sub: Net, sink: Option<nat>)
    requires Mirrored(L) && source in L.succs
    ensures sink.None? ==> sub == EmptyNet
    ensures sink.Some? ==> Enclosed(L, source, sub, sink.value)
    ensures sink.Some? ==> forall R, t :: Enclosed(L, source, R, t) ==> sub.nodes <= R.nodes
    ensures sink.None? ==> NoneEnclosed(L, source)
    ensures sink.Some? <==> exists k, t :: InTime(L, source, k, t)
  {
    if L.succs[source] == {} {
      sub, sink := EmptyNet, None;
    } else {
      sub, sink := ColourSearch(L, source);
    }
    OutcomeIsSmallest(L, source, sub, sink);
  }

  /** What the rounds so far found out, besides the colours: none closed, and the size of the
      last one. */
  ghost predicate Searched(L: Linked, source: nat, round: nat, last: nat)
    requires Mirrored(L) && source in L.preds
  {
    && NotBefore(L, source, round + 1)
    && (Open(L, source, Explained(L, source, round)) ==> last == |EdgesInto(L, Explained(L, source, round))|)
  }

  lemma SearchStarts(L: Linked, source: nat, colors: Colors)
    requires Mirrored(L) && source in L.preds
    requires colors == (map e | e in L.preds[source] :: Red) + (map e | e in L.succs[source] :: Yellow)
    ensures Round(L, EdgesOf(L), source, colors, {}, map[], 0) && Levelled(L, source, colors, 0)
    ensures Searched(L, source, 0, 0)
  {
    FirstRound(L, EdgesOf(L), source, colors);
    FirstLevelled(L, EdgesOf(L), source, colors);
    assert EdgesInto(L, {}) == {};
  }

  /** The main loop. */
  method ColourSearch(L: Linked, source: nat) returns (sub: Net, sink: Option<nat>)
    requires Mirrored(L) && source in L.succs
    ensures Outcome(L, source, sub, sink) && (sink.Some? ==> Enclosed(L, source, sub, sink.value))
  {
    sub, sink := EmptyNet, None;
    var colors := (map pred | pred in L.preds[source] :: Red) + (map succ | succ in L.succs[source] :: Yellow);
    var lastGreenSetSize := 0;
    ghost var ever: set<Edge>, stamp: map<Edge, nat>, round := {}, map[], 0;
    SearchStarts(L, source, colors);
    while lastGreenSetSize < MAX_BOTTLENECK_SIZE
      invariant sub == EmptyNet && sink == None
      invariant Round(L, EdgesOf(L), source, colors, ever, stamp, round) && Levelled(L, source, colors, round)
      invariant Searched(L, source, round, lastGreenSetSize)
      decreases MAX_BOTTLENECK_SIZE - lastGreenSetSize
    {
      var greenSet;
      colors, greenSet, ever, stamp := ColourRound(L, source, colors, ever, stamp, round);
      sub, sink := ReadRegion(L, source, colors, greenSet, ever, stamp, round + 1);
      RoundDone(L, source, round, lastGreenSetSize, greenSet, sub, sink);
      if sink.Some? || lastGreenSetSize >= |greenSet| {
        return;
      }
      lastGreenSetSize, round := |greenSet|, round + 1;
    }
    GivenUp(L, source, round, lastGreenSetSize);
  }

  /** What a round decides. */
  lemma RoundDone(L: Linked, source: nat, round: nat, last: nat, greenSet: set<Edge>, sub: Net, sink: Option<nat>)
    requires Mirrored(L) && source in L.preds && Searched(L, source, round, last) && last < MAX_BOTTLENECK_SIZE
    requires Open(L, source, Explained(L, source, round + 1)) ==>
      greenSet == EdgesInto(L, Explained(L, source, round + 1))
    requires sink.None? ==> sub == EmptyNet && NotBefore(L, source, round + 2)
    requires sink.Some? ==> ClosesAt(L, source, round + 1, sink.value) && sub == ExplainedNet(L, source, round + 1)
    ensures if sink.Some? || last >= |greenSet| then Outcome(L, source, sub, sink)
            else Searched(L, source, round + 1, |greenSet|)
  {
    if sink.Some? {
      FoundInTime(L, source, round, sink.value);
    } else if last >= |greenSet| {
      Impasse(L, source, round, last, |greenSet|);
    }
  }

  /** One turn of the main loop: both passes. */
  method ColourRound(L: Linked, source: nat, colors0: Colors, ghost ever0: set<Edge>, ghost stamp0: map<Edge, nat>,
                     ghost round: nat)
    returns (colors: Colors, greenSet: set<Edge>, ghost ever: set<Edge>, ghost stamp: map<Edge, nat>)
    requires Mirrored(L) && source in L.preds
    requires Round(L, EdgesOf(L), source, colors0, ever0, stamp0, round) && Levelled(L, source, colors0, round)
    ensures Round(L, EdgesOf(L), source, colors, ever, stamp, round + 1) && Levelled(L, source, colors, round + 1)
    ensures Rising(colors0, colors) && ever0 <= ever && greenSet == WithColor(colors, Green)
    ensures Open(L, source, Explained(L, source, round + 1)) ==>
      greenSet == EdgesInto(L, Explained(L, source, round + 1))
  {
    ghost var E := EdgesOf(L);
    RoundsAreKnown(L, E, colors0);
    var colors1 := EvaluateYellow(L, colors0);
    AfterYellow(L, E, source, colors0, colors1, ever0, stamp0, round);
    RoundsAreKnown(L, E, colors1);
    colors := ResolveBlue(L, colors1);
    TurnKeeps(L, E, source, colors0, colors1, colors, ever0, stamp0, round);
    TurnLevelled(L, E, source, colors0, colors1, colors, ever0, stamp0, round);
    ever, stamp := ever0 + NewGreen(L, colors1), Stamp(stamp0, NewGreen(L, colors1), round);
    greenSet := WithColor(colors, Green);
  }

  /** The tests on the green edges of a round, and the test for cycles, which never fires. */
  method ReadRegion(L: Linked, source: nat, colors: Colors, greenSet: set<Edge>, ghost ever: set<Edge>,
                    ghost stamp: map<Edge, nat>, ghost round: nat)
    returns (sub: Net, sink: Option<nat>)
    requires Mirrored(L) && source in L.preds && greenSet == WithColor(colors, Green)
    requires Round(L, EdgesOf(L), source, colors, ever, stamp, round) && Levelled(L, source, colors, round)
    ensures sink.None? ==> sub == EmptyNet && (NotBefore(L, source, round) ==> NotBefore(L, source, round + 1))
    ensures sink.Some? ==> ClosesAt(L, source, round, sink.value) && sub == ExplainedNet(L, source, round)
    ensures sink.Some? ==> Enclosed(L, source, sub, sink.value)
  {
    ghost var E := EdgesOf(L);
    EndsAreNodes(L, E, greenSet);
    sub, sink := GreenEdgeDFS(greenSet, colors, L, source);
    forall t: nat ensures Closes(L, greenSet, colors, source, t) <==> ClosesAt(L, source, round, t) {
      ClosesMeans(L, E, source, colors, ever, stamp, round, t);
    }
    if sink.Some? {
      GreensFormRegion(L, E, source, colors, ever, stamp, round, sink.value);
      GreensAreExplained(L, source, colors, round, sink.value);
      ClosedIsEnclosed(L, source, round, sink.value);
      SubLinks(L, E, sub);
      var cyclic := FindCycles(sub, L.succs);
      if cyclic {
        sub, sink := EmptyNet, None;
      }
    }
  }

  lemma GreensAreExplained(L: Linked, source: nat, colors: Colors, round: nat, t: nat)
    requires Mirrored(L) && source in L.preds && Levelled(L, source, colors, round) && ClosesAt(L, source, round, t)
    ensures var G := WithColor(colors, Green); Net(EndsOf(G), G) == ExplainedNet(L, source, round)
  {
    var S := Explained(L, source, round);
    assert S != {} by {
      assert EdgesInto(L, {}) == {};
    }
    SourceIsEnd(L, source, round);
  }

  lemma FoundInTime(L: Linked, source: nat, round: nat, t: nat)
    requires Mirrored(L) && source in L.preds && ClosesAt(L, source, round + 1, t) && NotBefore(L, source, round + 1)
    requires Open(L, source, Explained(L, source, round)) ==>
      |EdgesInto(L, Explained(L, source, round))| < MAX_BOTTLENECK_SIZE
    ensures Outcome(L, source, ExplainedNet(L, source, round + 1), Some(t))
  {
    OpenBefore(L, source, round, round + 1);
    assert InTime(L, source, round + 1, t);
  }

  /** A round without new green edges, or without an entry that is still red. */
  lemma Impasse(L: Linked, source: nat, round: nat, last: nat, now: nat)
    requires Mirrored(L) && source in L.preds && NotBefore(L, source, round + 1)
    requires Open(L, source, Explained(L, source, round)) ==> last == |EdgesInto(L, Explained(L, source, round))|
    requires Open(L, source, Explained(L, source, round + 1)) ==>
      now == |EdgesInto(L, Explained(L, source, round + 1))| <= last
    ensures Outcome(L, source, EmptyNet, None)
  {
    if Open(L, source, Explained(L, source, round + 1)) {
      OpenBefore(L, source, round, round + 1);
      ExplainedGrows(L, source, round, round + 1);
      var S, S' := Explained(L, source, round), Explained(L, source, round + 1);
      SameSize(EdgesInto(L, S), EdgesInto(L, S'));
      EdgesTell(L, source, round, round + 1);
    }
    NoneLater(L, source, round);
  }

  lemma GivenUp(L: Linked, source: nat, round: nat, last: nat)
    requires Mirrored(L) && source in L.preds && Searched(L, source, round, last) && last >= MAX_BOTTLENECK_SIZE
    ensures Outcome(L, source, EmptyNet, None)
  {
    if Open(L, source, Explained(L, source, round)) {
      TooManyLater(L, source, round);
    } else {
      if Open(L, source, Explained(L, source, round + 1)) {
        OpenBefore(L, source, round, round + 1);
      }
      NoneLater(L, source, round);
    }
  }

  lemma EndsAreNodes(L: Linked, E: set<Edge>, G: set<Edge>)
    requires Mirrored(L) && E == EdgesOf(L) && G <= E
    ensures EndsOf(G) <= L.succs.Keys
  {
  }

  lemma SubLinks(L: Linked, E: set<Edge>, sub: Net)
    requires Mirrored(L) && E == EdgesOf(L) && sub.edges <= E && sub.nodes == EndsOf(sub.edges)
    ensures WellFormed(sub) && LinksFor(sub.nodes, L.succs)
    ensures Visible(sub, L.succs) == sub.edges
  {
    EndsAreNodes(L, E, sub.edges);
  }
}
