/** The dataflow transfer of a loop without inner loops: the values inside it come from one
    run of its graph, the values at its exits from running the same graph, with its cache, once
    per guaranteed iteration without the back edges and once more with them. */
module DataflowLoop {
  import opened Dataflow
  import opened DataflowTheorems

  /** The exit values of a run from `v`. */
  ghost predicate RunOf<V(!new)>(l: Lattice<V>, cs: seq<Component>, v: V, x: seq<V>) {
    exists e :: Greatest(l, cs, v, e) && |e| == |cs| && x == Outs(l, cs, e)
  }

  lemma RunUnique<V(!new)>(l: Lattice<V>, cs: seq<Component>, v: V, x: seq<V>, y: seq<V>)
    requires Lawful(l) && RunOf(l, cs, v, x) && RunOf(l, cs, v, y)
    ensures x == y
  {
    hide Lawful, Greatest, Outs;
    var e :| Greatest(l, cs, v, e) && |e| == |cs| && x == Outs(l, cs, e);
    var f :| Greatest(l, cs, v, f) && |f| == |cs| && y == Outs(l, cs, f);
    GreatestUnique(l, cs, v, e, f);
  }

  /** One iteration: from `v` at the header to `w` at the header again. */
  ghost predicate Around<V(!new)>(l: Lattice<V>, cut: seq<Component>, back: seq<nat>, v: V, w: V) {
    exists x :: RunOf(l, cut, v, x) && w == Fold(l, l.top, x, back, |back|)
  }

  ghost predicate AllAround<V(!new)>(l: Lattice<V>, cut: seq<Component>, back: seq<nat>, vs: seq<V>) {
    forall i :: 0 <= i < |vs| - 1 ==> Around(l, cut, back, vs[i], vs[i + 1])
  }

  /** Iterations are determined by their first value. */
  lemma {:induction false} IterationsUnique<V(!new)>(l: Lattice<V>, cut: seq<Component>, back: seq<nat>, vs: seq<V>,
                                                     ws: seq<V>, i: nat)
    requires Lawful(l) && AllAround(l, cut, back, vs) && AllAround(l, cut, back, ws)
    requires i < |vs| && i < |ws| && vs[0] == ws[0]
    ensures vs[i] == ws[i]
    decreases i
  {
    hide Lawful, RunOf;
    if i > 0 {
      IterationsUnique(l, cut, back, vs, ws, i - 1);
      assert Around(l, cut, back, vs[i - 1], vs[i - 1 + 1]) && Around(l, cut, back, ws[i - 1], ws[i - 1 + 1]);
      var x :| RunOf(l, cut, vs[i - 1], x) && vs[i] == Fold(l, l.top, x, back, |back|);
      var y :| RunOf(l, cut, vs[i - 1], y) && ws[i] == Fold(l, l.top, y, back, |back|);
      RunUnique(l, cut, vs[i - 1], x, y);
    }
  }

  /** The loop as it is asked about: the graph with and without the back edges, and the blocks with back edges. */
  ghost predicate LoopOk(full: seq<Component>, cut: seq<Component>, back: seq<nat>, n: nat) {
    GraphOk(full, n) && GraphOk(cut, n) && SameComponents(full, cut) && forall i :: 0 <= i < |back| ==> back[i] < |cut|
  }

  lemma BackIn<V(!new)>(l: Lattice<V>, x: seq<V>, back: seq<nat>)
    requires Lawful(l) && AllIn(l, x)
    ensures Fold(l, l.top, x, back, |back|) in l.carrier
  {
    hide Lawful;
    TopIn(l);
    FoldIsGlb(l, l.top, x, back, |back|, l.top);
  }

  lemma ExitsIn<V(!new)>(l: Lattice<V>, cs: seq<Component>, v: V, e: seq<V>, x: seq<V>)
    requires Lawful(l) && Greatest(l, cs, v, e) && |e| == |cs| && x == Outs(l, cs, e)
    ensures AllIn(l, x) && |x| == |cs| && RunOf(l, cs, v, x)
  {
    hide Lawful;
    OutsIn(l, cs, e);
  }

  method MeetBack<V(==)>(l: Lattice<V>, x: seq<V>, back: seq<nat>) returns (v: V)
    requires forall i :: 0 <= i < |back| ==> back[i] < |x|
    ensures v == Fold(l, l.top, x, back, |back|)
  {
    v := l.top;
    for i := 0 to |back|
      invariant v == Fold(l, l.top, x, back, i)
    {
      v := l.meet(v, x[back[i]]);
    }
  }

  /** The values at the loop's exits: those of a run from the value at the header after `min` iterations.
      Stopping early once the value has settled changes nothing, nor does what the cache holds. */
  method TransferExternal<V(==, !new)>(g: Graph<V>, cut: seq<Component>, back: seq<nat>, ev: V, min: nat)
    returns (x: seq<V>, ghost vs: seq<V>)
    requires g.Valid() && LoopOk(g.cs, cut, back, g.n) && ev in g.l.carrier
    ensures |vs| == min + 1 && vs[0] == ev && AllAround(g.l, cut, back, vs) && RunOf(g.l, g.cs, vs[min], x)
  {
    hide Lawful, Greatest, Settled, GraphOk, Outs, RunOf, Fold;
    var l := g.l;
    var around := new Graph.Relinked(g, cut);
    var v := ev;
    var settled := false;
    vs := [ev];
    var i := 0;
    while i < min && !settled
      invariant around.Valid() && around.l == l && around.cs == cut && around.n == g.n && fresh(around)
      invariant i <= min && |vs| == i + 1 && vs[0] == ev && vs[i] == v && v in l.carrier
      invariant AllAround(l, cut, back, vs) && (settled ==> Around(l, cut, back, v, v))
      decreases min - i
    {
      var ins, outs, y;
      ghost var e;
      ins, outs, y, e := around.Transfer(v);
      ExitsIn(l, cut, v, e, y);
      var w := MeetBack(l, y, back);
      BackIn(l, y, back);
      assert Around(l, cut, back, v, w);
      settled := w == v;
      vs := vs + [w];
      v := w;
      i := i + 1;
    }
    ghost var rest := seq(min - i, _ => v);
    StaysSettled(l, cut, back, vs, rest, v);
    vs := vs + rest;
    assert vs[min] == v;
    var final := new Graph.Relinked(around, g.cs);
    var ins, outs;
    ghost var e;
    ins, outs, x, e := final.Transfer(v);
    ExitsIn(l, g.cs, v, e, x);
  }

  lemma StaysSettled<V(!new)>(l: Lattice<V>, cut: seq<Component>, back: seq<nat>, vs: seq<V>, rest: seq<V>, v: V)
    requires AllAround(l, cut, back, vs) && vs != [] && vs[|vs| - 1] == v
    requires forall i :: 0 <= i < |rest| ==> rest[i] == v
    requires rest != [] ==> Around(l, cut, back, v, v)
    ensures AllAround(l, cut, back, vs + rest)
  {
    hide Around;
    var ws := vs + rest;
    forall i | 0 <= i < |ws| - 1
      ensures Around(l, cut, back, ws[i], ws[i + 1])
    {
      if i < |vs| - 1 {
        assert Around(l, cut, back, vs[i], vs[i + 1]);
      }
    }
  }

  /** The transfer of a loop: inside it the solution from the loop's entry value, at every instruction,
      and at its exits the values after at least `min` iterations. */
  method TransferLoop<V(==, !new)>(l: Lattice<V>, full: seq<Component>, cut: seq<Component>, back: seq<nat>, n: nat,
                                   ev: V, min: nat)
    returns (ins: seq<V>, outs: seq<V>, x: seq<V>, ghost e: seq<V>, ghost vs: seq<V>)
    requires Lawful(l) && LoopOk(full, cut, back, n) && ev in l.carrier
    ensures Greatest(l, full, ev, e) && |e| == |full| && AllRight(l, full, e, ins, outs)
    ensures |vs| == min + 1 && vs[0] == ev && AllAround(l, cut, back, vs) && RunOf(l, full, vs[min], x)
  {
    hide Lawful, Greatest, Settled, GraphOk, Outs, RunOf, AllRight, AllAround;
    var g := new Graph(l, full, n);
    var y;
    ins, outs, y, e := g.Transfer(ev);
    EmptyCacheHarmless(l, full, ev, e, ins, outs);
    x, vs := TransferExternal(g, cut, back, ev, min);
  }
}
