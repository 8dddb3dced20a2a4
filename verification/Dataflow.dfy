/** The dataflow engine: a graph of straight-line components, iterated from the top
    value downwards until nothing changes, with a cache of what each component did
    with the entry value it last saw. */
module Dataflow {
  import Digraph

  // ---------------------------------------------------------------- lattices

  /** A finite set of values with a meet and a top, and what each instruction does to a value. */
  datatype Lattice<!V> = Lattice(carrier: set<V>, top: V, meet: (V, V) -> V, transfer: (nat, V) -> V)

  ghost predicate Le<V>(l: Lattice<V>, a: V, b: V) {
    a in l.carrier && b in l.carrier && l.meet(a, b) == a
  }

  /** A finite meet-semilattice with top and a monotone transfer. */
  ghost predicate Lawful<V(!new)>(l: Lattice<V>) {
    && l.top in l.carrier
    && (forall a, b :: a in l.carrier && b in l.carrier ==> l.meet(a, b) in l.carrier && l.meet(a, b) == l.meet(b, a))
    && (forall a, b, c :: a in l.carrier && b in l.carrier && c in l.carrier ==>
        l.meet(a, l.meet(b, c)) == l.meet(l.meet(a, b), c))
    && (forall a :: a in l.carrier ==> l.meet(a, a) == a && l.meet(l.top, a) == a)
    && (forall i, a :: a in l.carrier ==> l.transfer(i, a) in l.carrier)
    && (forall i, a, b {:trigger l.transfer(i, a), l.transfer(i, b)} :: Le(l, a, b) ==>
        Le(l, l.transfer(i, a), l.transfer(i, b)))
  }

  lemma LeRefl<V(!new)>(l: Lattice<V>, a: V)
    requires Lawful(l) && a in l.carrier
    ensures Le(l, a, a) && Le(l, a, l.top)
  {
    assert l.meet(a, l.top) == l.meet(l.top, a);
  }

  lemma LeTrans<V(!new)>(l: Lattice<V>, a: V, b: V, c: V)
    requires Lawful(l) && Le(l, a, b) && Le(l, b, c)
    ensures Le(l, a, c)
  {
    assert l.meet(a, l.meet(b, c)) == l.meet(l.meet(a, b), c);
  }

  lemma LeAntisym<V(!new)>(l: Lattice<V>, a: V, b: V)
    requires Lawful(l) && Le(l, a, b) && Le(l, b, a)
    ensures a == b
  {
    assert l.meet(a, b) == l.meet(b, a);
  }

  /** The meet is the greatest lower bound. */
  lemma MeetIsGlb<V(!new)>(l: Lattice<V>, a: V, b: V, c: V)
    requires Lawful(l) && a in l.carrier && b in l.carrier && c in l.carrier
    ensures Le(l, l.meet(a, b), a) && Le(l, l.meet(a, b), b)
    ensures Le(l, c, l.meet(a, b)) <==> Le(l, c, a) && Le(l, c, b)
  {
    var m := l.meet(a, b);
    assert l.meet(a, l.meet(a, b)) == l.meet(l.meet(a, a), b);
    assert l.meet(m, a) == l.meet(a, m);
    assert l.meet(a, l.meet(b, b)) == l.meet(l.meet(a, b), b);
    assert l.meet(c, m) == l.meet(l.meet(c, a), b);
    if Le(l, c, m) {
      LeTrans(l, c, m, a);
      LeTrans(l, c, m, b);
    }
  }

  ghost function Below<V>(l: Lattice<V>, v: V): set<V> {
    set u | u in l.carrier && Le(l, u, v) && u != v
  }

  lemma RankDrops<V(!new)>(l: Lattice<V>, a: V, b: V)
    requires Lawful(l) && Le(l, a, b)
    ensures |Below(l, a)| <= |Below(l, b)| && (a != b ==> |Below(l, a)| < |Below(l, b)|)
  {
    forall u | u in Below(l, a)
      ensures u in Below(l, b)
    {
      LeTrans(l, u, a, b);
      if u == b {
        LeAntisym(l, a, b);
      }
    }
    Digraph.SubsetCard(Below(l, a), Below(l, b));
    if a != b {
      assert a in Below(l, b) && a !in Below(l, a);
    }
  }

  // ---------------------------------------------------------------- vectors of values

  ghost predicate AllIn<V>(l: Lattice<V>, s: seq<V>) {
    forall i :: 0 <= i < |s| ==> s[i] in l.carrier
  }

  ghost predicate AllLe<V>(l: Lattice<V>, s: seq<V>, t: seq<V>) {
    |s| == |t| && forall i :: 0 <= i < |s| ==> Le(l, s[i], t[i])
  }

  ghost function Total<V>(l: Lattice<V>, s: seq<V>): nat {
    if s == [] then 0 else Total(l, s[..|s| - 1]) + |Below(l, s[|s| - 1])|
  }

  lemma {:induction false} TotalDrops<V(!new)>(l: Lattice<V>, s: seq<V>, t: seq<V>)
    requires Lawful(l) && AllLe(l, s, t)
    ensures Total(l, s) <= Total(l, t) && (s != t ==> Total(l, s) < Total(l, t))
    decreases |s|
  {
    hide Lawful;
    if s != [] {
      var m := |s| - 1;
      assert Le(l, s[m], t[m]);
      RankDrops(l, s[m], t[m]);
      TotalDrops(l, s[..m], t[..m]);
      assert s == s[..m] + [s[m]] && t == t[..m] + [t[m]];
    }
  }

  // ---------------------------------------------------------------- graphs of components

  /** Instructions `lo` up to `hi`, one after another. A component at the front of its
      block is entered from the ends of the components `preds`, any other from the one before it. */
  datatype Component = Component(lo: nat, hi: nat, front: bool, preds: seq<nat>)

  /** The components cut up the instructions 0, ..., `n` - 1; the first is where control enters. */
  ghost predicate GraphOk(cs: seq<Component>, n: nat) {
    && |cs| > 0 && cs[0].lo == 0 && cs[0].front && cs[|cs| - 1].hi == n
    && (forall c :: 0 <= c < |cs| ==> ComponentOk(cs, c))
  }

  ghost predicate ComponentOk(cs: seq<Component>, c: nat)
    requires c < |cs|
  {
    && cs[c].lo < cs[c].hi
    && (c + 1 < |cs| ==> cs[c].hi == cs[c + 1].lo)
    && (forall j :: 0 <= j < |cs[c].preds| ==> cs[c].preds[j] < |cs|)
    && (!cs[c].front ==> c > 0 && cs[c].preds == [c - 1])
  }

  /** The value before instruction `k`, if `v` enters at `lo`. */
  ghost function Trace<V>(l: Lattice<V>, lo: nat, k: nat, v: V): V
    requires lo <= k
    decreases k
  {
    if k == lo then v else l.transfer(k - 1, Trace(l, lo, k - 1, v))
  }

  ghost function Out<V>(l: Lattice<V>, c: Component, v: V): V
  {
    if c.lo <= c.hi then Trace(l, c.lo, c.hi, v) else v
  }

  lemma {:induction false} TraceMonotone<V(!new)>(l: Lattice<V>, lo: nat, k: nat, v: V, w: V)
    requires Lawful(l) && lo <= k && Le(l, v, w)
    ensures Le(l, Trace(l, lo, k, v), Trace(l, lo, k, w))
    decreases k
  {
    if k > lo {
      TraceMonotone(l, lo, k - 1, v, w);
      var a, b := Trace(l, lo, k - 1, v), Trace(l, lo, k - 1, w);
      assert Le(l, l.transfer(k - 1, a), l.transfer(k - 1, b));
    }
  }

  ghost function ExitOf<V>(l: Lattice<V>, exits: seq<V>, p: nat): V {
    if p < |exits| then exits[p] else l.top
  }

  /** The meet of `v` with the exit values of the first `j` of `ps`. */
  ghost function Fold<V>(l: Lattice<V>, v: V, exits: seq<V>, ps: seq<nat>, j: nat): V
    requires j <= |ps|
  {
    if j == 0 then v else l.meet(Fold(l, v, exits, ps, j - 1), ExitOf(l, exits, ps[j - 1]))
  }

  lemma ExitIn<V(!new)>(l: Lattice<V>, exits: seq<V>, p: nat)
    requires Lawful(l) && AllIn(l, exits)
    ensures ExitOf(l, exits, p) in l.carrier
  {
  }

  lemma {:induction false} FoldIsGlb<V(!new)>(l: Lattice<V>, v: V, exits: seq<V>, ps: seq<nat>, j: nat, u: V)
    requires Lawful(l) && v in l.carrier && u in l.carrier && AllIn(l, exits) && j <= |ps|
    ensures Fold(l, v, exits, ps, j) in l.carrier && Le(l, Fold(l, v, exits, ps, j), v)
    ensures Le(l, u, Fold(l, v, exits, ps, j)) <==>
            Le(l, u, v) && forall i :: 0 <= i < j ==> Le(l, u, ExitOf(l, exits, ps[i]))
  {
    hide Lawful, ExitOf;
    if j == 0 {
      LeRefl(l, v);
    } else {
      FoldIsGlb(l, v, exits, ps, j - 1, u);
      var f, x := Fold(l, v, exits, ps, j - 1), ExitOf(l, exits, ps[j - 1]);
      ExitIn(l, exits, ps[j - 1]);
      MeetIsGlb(l, f, x, u);
      LeTrans(l, l.meet(f, x), f, v);
    }
  }

  lemma {:induction false} FoldMonotone<V(!new)>(l: Lattice<V>, v: V, w: V, x: seq<V>, y: seq<V>, ps: seq<nat>, j: nat)
    requires Lawful(l) && Le(l, v, w) && AllLe(l, x, y) && j <= |ps|
    ensures Le(l, Fold(l, v, x, ps, j), Fold(l, w, y, ps, j))
  {
    hide Lawful, ExitOf;
    if j > 0 {
      FoldMonotone(l, v, w, x, y, ps, j - 1);
      var a, b, p, q :=
        Fold(l, v, x, ps, j - 1), Fold(l, w, y, ps, j - 1), ExitOf(l, x, ps[j - 1]), ExitOf(l, y, ps[j - 1]);
      ExitLe(l, x, y, ps[j - 1]);
      MeetIsGlb(l, a, p, a);
      MeetIsGlb(l, b, q, l.meet(a, p));
      LeTrans(l, l.meet(a, p), a, b);
      LeTrans(l, l.meet(a, p), p, q);
    }
  }

  lemma ExitLe<V(!new)>(l: Lattice<V>, x: seq<V>, y: seq<V>, p: nat)
    requires Lawful(l) && AllLe(l, x, y)
    ensures Le(l, ExitOf(l, x, p), ExitOf(l, y, p))
  {
    LeRefl(l, l.top);
  }

  // ---------------------------------------------------------------- the equations

  /** The value a component's equation starts from. */
  ghost function Start<V>(l: Lattice<V>, ev: V, c: nat): V {
    if c == 0 then ev else l.top
  }

  ghost function Outs<V>(l: Lattice<V>, cs: seq<Component>, e: seq<V>): (x: seq<V>)
    requires |e| == |cs|
    ensures |x| == |cs| && forall c :: 0 <= c < |cs| ==> x[c] == Out(l, cs[c], e[c])
  {
    seq(|cs|, c requires 0 <= c < |cs| => Out(l, cs[c], e[c]))
  }

  ghost function Folded<V>(l: Lattice<V>, v: V, exits: seq<V>, c: Component): V {
    Fold(l, v, exits, c.preds, |c.preds|)
  }

  /** Entry values that satisfy the dataflow equations. */
  ghost predicate Solves<V>(l: Lattice<V>, cs: seq<Component>, ev: V, e: seq<V>) {
    && |e| == |cs| && AllIn(l, e)
    && (forall c :: 0 <= c < |cs| ==> e[c] == Folded(l, Start(l, ev, c), Outs(l, cs, e), cs[c]))
  }

  ghost predicate Greatest<V(!new)>(l: Lattice<V>, cs: seq<Component>, ev: V, e: seq<V>) {
    Solves(l, cs, ev, e) && forall s :: Solves(l, cs, ev, s) ==> AllLe(l, s, e)
  }

  lemma GreatestSolves<V(!new)>(l: Lattice<V>, cs: seq<Component>, ev: V, e: seq<V>)
    requires Greatest(l, cs, ev, e)
    ensures Solves(l, cs, ev, e)
  {
  }

  /** What the equations make of entry values. */
  ghost function Lifted<V>(l: Lattice<V>, cs: seq<Component>, ev: V, s: seq<V>): (t: seq<V>)
    requires |s| == |cs|
    ensures |t| == |cs| && forall c :: 0 <= c < |cs| ==> t[c] == Folded(l, Start(l, ev, c), Outs(l, cs, s), cs[c])
  {
    seq(|cs|, c requires 0 <= c < |cs| => Folded(l, Start(l, ev, c), Outs(l, cs, s), cs[c]))
  }

  lemma LiftedMonotone<V(!new)>(l: Lattice<V>, cs: seq<Component>, ev: V, s: seq<V>, t: seq<V>)
    requires Lawful(l) && ev in l.carrier && |s| == |cs| && AllLe(l, s, t)
    ensures AllLe(l, Lifted(l, cs, ev, s), Lifted(l, cs, ev, t))
  {
    hide Lawful;
    TopIn(l);
    OutsMonotone(l, cs, s, t);
    forall c | 0 <= c < |cs|
      ensures Le(l, Lifted(l, cs, ev, s)[c], Lifted(l, cs, ev, t)[c])
    {
      LeRefl(l, Start(l, ev, c));
      FoldMonotone(l, Start(l, ev, c), Start(l, ev, c), Outs(l, cs, s), Outs(l, cs, t), cs[c].preds, |cs[c].preds|);
    }
  }

  ghost function Tops<V>(l: Lattice<V>, n: nat): (t: seq<V>)
    ensures |t| == n && forall i :: 0 <= i < n ==> t[i] == l.top
  {
    seq(n, _ => l.top)
  }

  /** Whatever the equations do not lower is below the greatest solution. */
  lemma {:induction false} BelowGreatest<V(!new)>(l: Lattice<V>, cs: seq<Component>, ev: V, e: seq<V>, s: seq<V>)
    requires Lawful(l) && ev in l.carrier && Greatest(l, cs, ev, e) && |s| == |cs|
    requires forall c :: 0 <= c < |cs| ==> Le(l, s[c], Folded(l, Start(l, ev, c), Outs(l, cs, s), cs[c]))
    ensures AllLe(l, s, e)
    decreases Total(l, Tops(l, |cs|)) - Total(l, s)
  {
    hide Lawful, Folded, Outs, Total;
    var t := Lifted(l, cs, ev, s);
    assert AllLe(l, s, t);
    if s == t {
      assert Solves(l, cs, ev, s);
    } else {
      LiftedMonotone(l, cs, ev, s, t);
      TotalDrops(l, s, t);
      BelowTops(l, t);
      TotalDrops(l, t, Tops(l, |cs|));
      BelowGreatest(l, cs, ev, e, t);
      forall c | 0 <= c < |cs|
        ensures Le(l, s[c], e[c])
      {
        LeTrans(l, s[c], t[c], e[c]);
      }
    }
  }

  lemma BelowTops<V(!new)>(l: Lattice<V>, s: seq<V>)
    requires Lawful(l) && AllIn(l, s)
    ensures AllLe(l, s, Tops(l, |s|))
  {
    forall c | 0 <= c < |s|
      ensures Le(l, s[c], l.top)
    {
      assert l.meet(s[c], l.top) == l.meet(l.top, s[c]) == s[c];
    }
  }

  lemma GreatestUnique<V(!new)>(l: Lattice<V>, cs: seq<Component>, ev: V, e: seq<V>, e': seq<V>)
    requires Lawful(l) && Greatest(l, cs, ev, e) && Greatest(l, cs, ev, e')
    ensures e == e'
  {
    hide Lawful, Solves;
    assert |e| == |e'| && AllLe(l, e, e') && AllLe(l, e', e);
    forall c | 0 <= c < |e|
      ensures e[c] == e'[c]
    {
      LeAntisym(l, e[c], e'[c]);
    }
  }

  // ---------------------------------------------------------------- one round

  /** Entry values after the meet: the first component's accumulates, the others' start over from top. */
  ghost function Met<V>(l: Lattice<V>, cs: seq<Component>, e: seq<V>, x: seq<V>): (e': seq<V>)
    requires |e| == |cs|
    ensures |e'| == |cs| && forall c :: 0 <= c < |cs| ==> e'[c] == Folded(l, if c == 0 then e[0] else l.top, x, cs[c])
  {
    seq(|cs|, c requires 0 <= c < |cs| => Folded(l, if c == 0 then e[0] else l.top, x, cs[c]))
  }

  /** What every round keeps: the entry values lie above what the equations make of the
      exit values and above every solution; the first one's lies below the given value. */
  ghost predicate Descent<V(!new)>(l: Lattice<V>, cs: seq<Component>, ev: V, e: seq<V>, x: seq<V>) {
    && |cs| > 0 && |e| == |x| == |cs| && AllIn(l, e) && AllIn(l, x)
    && Le(l, e[0], ev)
    && AllLe(l, Outs(l, cs, e), x)
    && (forall c :: 0 <= c < |cs| ==> Le(l, Folded(l, Start(l, ev, c), x, cs[c]), e[c]))
    && (forall s :: Solves(l, cs, ev, s) ==> AllLe(l, s, e) && AllLe(l, Outs(l, cs, s), x))
  }

  lemma {:induction false} TraceIn<V(!new)>(l: Lattice<V>, lo: nat, k: nat, v: V)
    requires Lawful(l) && lo <= k && v in l.carrier
    ensures Trace(l, lo, k, v) in l.carrier
    decreases k
  {
    if k > lo {
      TraceIn(l, lo, k - 1, v);
    }
  }

  lemma OutMonotone<V(!new)>(l: Lattice<V>, c: Component, v: V, w: V)
    requires Lawful(l) && Le(l, v, w)
    ensures Le(l, Out(l, c, v), Out(l, c, w))
  {
    if c.lo <= c.hi {
      TraceMonotone(l, c.lo, c.hi, v, w);
    }
  }

  lemma OutsMonotone<V(!new)>(l: Lattice<V>, cs: seq<Component>, e: seq<V>, e': seq<V>)
    requires Lawful(l) && |e| == |cs| && AllLe(l, e, e')
    ensures AllLe(l, Outs(l, cs, e), Outs(l, cs, e')) && AllIn(l, Outs(l, cs, e))
  {
    hide Lawful;
    forall c | 0 <= c < |cs|
      ensures Le(l, Outs(l, cs, e)[c], Outs(l, cs, e')[c])
    {
      OutMonotone(l, cs[c], e[c], e'[c]);
    }
  }

  /** The meet goes down, and stays above every solution. */
  lemma MeetDescends<V(!new)>(l: Lattice<V>, cs: seq<Component>, ev: V, e: seq<V>, x: seq<V>)
    requires Lawful(l) && ev in l.carrier && Descent(l, cs, ev, e, x)
    ensures AllLe(l, Met(l, cs, e, x), e) && AllIn(l, Met(l, cs, e, x))
    ensures forall s :: Solves(l, cs, ev, s) ==> AllLe(l, s, Met(l, cs, e, x))
    ensures forall c :: 0 <= c < |cs| ==> Le(l, Folded(l, Start(l, ev, c), x, cs[c]), Met(l, cs, e, x)[c])
  {
    hide Lawful, Solves;
    var e' := Met(l, cs, e, x);
    TopIn(l);
    forall c | 0 <= c < |cs|
      ensures Le(l, e'[c], e[c]) && Le(l, Folded(l, Start(l, ev, c), x, cs[c]), e'[c])
    {
      FirstDescends(l, cs, ev, e, x, c);
    }
    forall s | Solves(l, cs, ev, s)
      ensures AllLe(l, s, e')
    {
      SolutionBelow(l, cs, ev, e, x, s);
    }
  }

  lemma TopIn<V(!new)>(l: Lattice<V>)
    requires Lawful(l)
    ensures l.top in l.carrier
  {
  }

  lemma FirstDescends<V(!new)>(l: Lattice<V>, cs: seq<Component>, ev: V, e: seq<V>, x: seq<V>, c: nat)
    requires Lawful(l) && ev in l.carrier && Descent(l, cs, ev, e, x) && c < |cs|
    ensures Le(l, Met(l, cs, e, x)[c], e[c]) && Le(l, Folded(l, Start(l, ev, c), x, cs[c]), Met(l, cs, e, x)[c])
  {
    hide Lawful, Solves;
    var ps := cs[c].preds;
    if c == 0 {
      var f := Fold(l, ev, x, ps, |ps|);
      FoldIsGlb(l, ev, x, ps, |ps|, e[0]);
      FoldIsGlb(l, e[0], x, ps, |ps|, f);
      LeRefl(l, f);
      FoldIsGlb(l, ev, x, ps, |ps|, f);
    } else {
      TopIn(l);
      FoldIsGlb(l, l.top, x, ps, |ps|, l.top);
      LeRefl(l, Fold(l, l.top, x, ps, |ps|));
    }
  }

  lemma SolutionBelow<V(!new)>(l: Lattice<V>, cs: seq<Component>, ev: V, e: seq<V>, x: seq<V>, s: seq<V>)
    requires Lawful(l) && ev in l.carrier && Descent(l, cs, ev, e, x) && Solves(l, cs, ev, s)
    ensures AllLe(l, s, Met(l, cs, e, x))
  {
    hide Lawful;
    var e' := Met(l, cs, e, x);
    TopIn(l);
    assert AllLe(l, s, e) && AllLe(l, Outs(l, cs, s), x);
    forall c | 0 <= c < |cs|
      ensures Le(l, s[c], e'[c])
    {
      var ps, y := cs[c].preds, Outs(l, cs, s);
      if c == 0 {
        FoldIsGlb(l, ev, y, ps, |ps|, s[0]);
        LeRefl(l, s[0]);
        OutsIn(l, cs, s);
        FoldMonotone(l, s[0], e[0], y, x, ps, |ps|);
        FoldIsGlb(l, s[0], y, ps, |ps|, s[0]);
        LeTrans(l, s[0], Fold(l, s[0], y, ps, |ps|), e'[0]);
      } else {
        LeRefl(l, l.top);
        FoldMonotone(l, l.top, l.top, y, x, ps, |ps|);
      }
    }
  }

  lemma OutsIn<V(!new)>(l: Lattice<V>, cs: seq<Component>, e: seq<V>)
    requires Lawful(l) && |e| == |cs| && AllIn(l, e)
    ensures AllIn(l, Outs(l, cs, e))
  {
    hide Lawful;
    forall c | 0 <= c < |cs|
      ensures Le(l, e[c], e[c])
    {
      LeRefl(l, e[c]);
    }
    OutsMonotone(l, cs, e, e);
  }

  /** A round keeps the descent. */
  lemma RoundDescends<V(!new)>(l: Lattice<V>, cs: seq<Component>, ev: V, e: seq<V>, x: seq<V>)
    requires Lawful(l) && ev in l.carrier && Descent(l, cs, ev, e, x)
    ensures var e' := Met(l, cs, e, x);
            AllLe(l, e', e) && AllLe(l, Outs(l, cs, e'), x) && Descent(l, cs, ev, e', Outs(l, cs, e'))
  {
    hide Lawful, Solves;
    var e' := Met(l, cs, e, x);
    var x' := Outs(l, cs, e');
    MeetDescends(l, cs, ev, e, x);
    OutsMonotone(l, cs, e', e);
    forall c | 0 <= c < |cs|
      ensures Le(l, x'[c], x[c]) && Le(l, x'[c], x'[c])
    {
      LeTrans(l, x'[c], Outs(l, cs, e)[c], x[c]);
      LeRefl(l, x'[c]);
    }
    LeTrans(l, e'[0], e[0], ev);
    forall c | 0 <= c < |cs|
      ensures Le(l, Folded(l, Start(l, ev, c), x', cs[c]), e'[c])
    {
      TopIn(l);
      LeRefl(l, Start(l, ev, c));
      FoldMonotone(l, Start(l, ev, c), Start(l, ev, c), x', x, cs[c].preds, |cs[c].preds|);
      LeTrans(l, Folded(l, Start(l, ev, c), x', cs[c]), Folded(l, Start(l, ev, c), x, cs[c]), e'[c]);
    }
    forall s | Solves(l, cs, ev, s)
      ensures AllLe(l, Outs(l, cs, s), x')
    {
      SolutionLength(l, cs, ev, s);
      OutsMonotone(l, cs, s, e');
    }
  }

  lemma SolutionLength<V(!new)>(l: Lattice<V>, cs: seq<Component>, ev: V, s: seq<V>)
    requires Solves(l, cs, ev, s)
    ensures |s| == |cs|
  {
  }

  /** When a round changes nothing, the greatest solution is reached. */
  lemma StableIsGreatest<V(!new)>(l: Lattice<V>, cs: seq<Component>, ev: V, e: seq<V>)
    requires Lawful(l) && ev in l.carrier && |e| == |cs| && Descent(l, cs, ev, e, Outs(l, cs, e))
    requires Met(l, cs, e, Outs(l, cs, e)) == e
    ensures Greatest(l, cs, ev, e)
  {
    hide Lawful;
    var x := Outs(l, cs, e);
    forall c | 0 <= c < |cs|
      ensures e[c] == Folded(l, Start(l, ev, c), x, cs[c])
    {
      if c == 0 {
        var ps := cs[0].preds;
        FoldMonotone2(l, e[0], ev, x, ps);
        LeAntisym(l, e[0], Folded(l, ev, x, cs[0]));
      }
    }
  }

  lemma FoldMonotone2<V(!new)>(l: Lattice<V>, v: V, w: V, x: seq<V>, ps: seq<nat>)
    requires Lawful(l) && Le(l, v, w) && AllIn(l, x)
    ensures Le(l, Fold(l, v, x, ps, |ps|), Fold(l, w, x, ps, |ps|))
  {
    hide Lawful;
    forall c | 0 <= c < |x|
      ensures Le(l, x[c], x[c])
    {
      LeRefl(l, x[c]);
    }
    FoldMonotone(l, v, w, x, x, ps, |ps|);
  }

  /** The state before the first round. */
  lemma FirstDescent<V(!new)>(l: Lattice<V>, cs: seq<Component>, ev: V, e: seq<V>, x: seq<V>)
    requires Lawful(l) && ev in l.carrier && |cs| > 0 && |e| == |x| == |cs|
    requires e[0] == ev && (forall c :: 1 <= c < |cs| ==> e[c] == l.top)
    requires forall c :: 0 <= c < |cs| ==> x[c] == l.top
    ensures Descent(l, cs, ev, e, x)
  {
    hide Lawful;
    TopIn(l);
    OutsIn(l, cs, e);
    forall c | 0 <= c < |cs|
      ensures Le(l, Outs(l, cs, e)[c], x[c]) && Le(l, Folded(l, Start(l, ev, c), x, cs[c]), e[c])
    {
      LeRefl(l, Outs(l, cs, e)[c]);
      FoldIsGlb(l, Start(l, ev, c), x, cs[c].preds, |cs[c].preds|, l.top);
    }
    LeRefl(l, ev);
    forall s | Solves(l, cs, ev, s)
      ensures AllLe(l, s, e) && AllLe(l, Outs(l, cs, s), x)
    {
      OutsIn(l, cs, s);
      forall c | 0 <= c < |cs|
        ensures Le(l, s[c], e[c]) && Le(l, Outs(l, cs, s)[c], x[c])
      {
        LeRefl(l, s[c]);
        LeRefl(l, Outs(l, cs, s)[c]);
        FoldIsGlb(l, Start(l, ev, c), Outs(l, cs, s), cs[c].preds, |cs[c].preds|, l.top);
      }
    }
  }

  // ---------------------------------------------------------------- the engine

  datatype CacheEntry<V> = CacheEntry(entry: V, exit: V)

  ghost predicate Sized<V>(cs: seq<Component>, n: nat, s: seq<V>) {
    |s| == n && forall c :: 0 <= c < |cs| ==> cs[c].lo < cs[c].hi <= n
  }

  lemma {:induction false} BoundsFrom(cs: seq<Component>, n: nat, c: nat)
    requires GraphOk(cs, n) && c < |cs|
    ensures cs[c].lo < cs[c].hi <= n
    ensures forall d :: c < d < |cs| ==> cs[c].hi <= cs[d].lo
    decreases |cs| - c
  {
    assert ComponentOk(cs, c);
    if c + 1 < |cs| {
      BoundsFrom(cs, n, c + 1);
    }
  }

  lemma Bounds<V>(cs: seq<Component>, n: nat, s: seq<V>)
    requires GraphOk(cs, n) && |s| == n
    ensures Sized(cs, n, s) && forall c, d :: 0 <= c < d < |cs| ==> cs[c].hi <= cs[d].lo
  {
    forall c | 0 <= c < |cs|
      ensures cs[c].lo < cs[c].hi <= n && forall d :: c < d < |cs| ==> cs[c].hi <= cs[d].lo
    {
      BoundsFrom(cs, n, c);
    }
  }

  /** Every instruction lies in a component. */
  lemma {:induction false} Owner(cs: seq<Component>, n: nat, k: nat, m: nat) returns (c: nat)
    requires GraphOk(cs, n) && m < |cs| && k < cs[m].hi
    ensures c <= m && cs[c].lo <= k < cs[c].hi
    decreases m
  {
    assert ComponentOk(cs, m);
    if k >= cs[m].lo {
      c := m;
    } else {
      assert ComponentOk(cs, m - 1);
      c := Owner(cs, n, k, m - 1);
    }
  }

  ghost function Entries<V>(cs: seq<Component>, n: nat, ins: seq<V>): (e: seq<V>)
    requires Sized(cs, n, ins)
    ensures |e| == |cs| && forall c :: 0 <= c < |cs| ==> e[c] == ins[cs[c].lo]
  {
    seq(|cs|, c requires 0 <= c < |cs| => ins[cs[c].lo])
  }

  /** Inside `c` everything is as it follows from the entry value `v`. */
  ghost predicate Right<V>(l: Lattice<V>, c: Component, v: V, ins: seq<V>, outs: seq<V>) {
    forall k: nat :: c.lo <= k < c.hi && k < |ins| && k < |outs| ==>
        ins[k] == Trace(l, c.lo, k, v) && outs[k] == Trace(l, c.lo, k + 1, v)
  }

  /** Inside `c`, but for the entry, nothing has happened yet. */
  ghost predicate Raw<V>(l: Lattice<V>, c: Component, v: V, ins: seq<V>, outs: seq<V>) {
    forall k: nat :: c.lo <= k < c.hi && k < |ins| && k < |outs| ==>
        ins[k] == (if k == c.lo then v else l.top) && outs[k] == l.top
  }

  /** The components whose first entry value was already cached before the run and has not changed. */
  ghost predicate Stale<V>(l: Lattice<V>, ev: V, was: map<nat, CacheEntry<V>>, e: seq<V>, c: nat)
    requires c < |e|
  {
    c in was && was[c].entry == Start(l, ev, c) == e[c]
  }

  ghost predicate Settled<V>(l: Lattice<V>, cs: seq<Component>, ev: V, was: map<nat, CacheEntry<V>>, e: seq<V>,
                             ins: seq<V>, outs: seq<V>)
    requires |e| == |cs|
  {
    forall c :: 0 <= c < |cs| ==>
        if Stale(l, ev, was, e, c) then Raw(l, cs[c], e[c], ins, outs) else Right(l, cs[c], e[c], ins, outs)
  }

  lemma RightAt<V>(l: Lattice<V>, c: Component, v: V, ins: seq<V>, outs: seq<V>, k: nat)
    requires Right(l, c, v, ins, outs) && c.lo <= k < c.hi && k < |ins| && k < |outs|
    ensures ins[k] == Trace(l, c.lo, k, v) && outs[k] == Trace(l, c.lo, k + 1, v)
  {
  }

  /** Settled states with the same entry values are the same. */
  lemma SettledSame<V>(l: Lattice<V>, cs: seq<Component>, n: nat, ev: V, was: map<nat, CacheEntry<V>>, e: seq<V>,
                       ins: seq<V>, outs: seq<V>, ins': seq<V>, outs': seq<V>)
    requires GraphOk(cs, n) && |e| == |cs| && |ins| == |outs| == |ins'| == |outs'| == n
    requires Settled(l, cs, ev, was, e, ins, outs) && Settled(l, cs, ev, was, e, ins', outs')
    ensures ins == ins' && outs == outs'
  {
    forall k | 0 <= k < n
      ensures ins[k] == ins'[k] && outs[k] == outs'[k]
    {
      var c := Owner(cs, n, k, |cs| - 1);
      assert if Stale(l, ev, was, e, c) then Raw(l, cs[c], e[c], ins, outs) else Right(l, cs[c], e[c], ins, outs);
      assert if Stale(l, ev, was, e, c) then Raw(l, cs[c], e[c], ins', outs') else Right(l, cs[c], e[c], ins', outs');
      if !Stale(l, ev, was, e, c) {
        RightAt(l, cs[c], e[c], ins, outs, k);
        RightAt(l, cs[c], e[c], ins', outs', k);
      }
    }
  }

  /** Outside `c` nothing differs. */
  ghost predicate Elsewhere<V>(c: Component, s: seq<V>, t: seq<V>) {
    |s| == |t| && forall k :: 0 <= k < |s| && !(c.lo <= k < c.hi) ==> s[k] == t[k]
  }

  /** Graphs that differ in their edges only. */
  ghost predicate SameComponents(cs: seq<Component>, cs': seq<Component>) {
    |cs| == |cs'| && forall c :: 0 <= c < |cs| ==> cs'[c].lo == cs[c].lo && cs'[c].hi == cs[c].hi
  }

  class Graph<V(==, !new)> {
    const l: Lattice<V>
    const cs: seq<Component>
    const n: nat
    var cache: map<nat, CacheEntry<V>>

    constructor (l: Lattice<V>, cs: seq<Component>, n: nat)
      requires Lawful(l) && GraphOk(cs, n)
      ensures this.l == l && this.cs == cs && this.n == n && cache == map[] && Valid()
    {
      this.l, this.cs, this.n, cache := l, cs, n, map[];
    }

    /** The graph `g` with other edges between the same components. */
    constructor Relinked(g: Graph<V>, cs: seq<Component>)
      requires g.Valid() && GraphOk(cs, g.n) && SameComponents(g.cs, cs)
      ensures l == g.l && this.cs == cs && n == g.n && cache == g.cache && Valid()
    {
      l, this.cs, n, cache := g.l, cs, g.n, g.cache;
    }

    ghost predicate Valid()
      reads this
    {
      Lawful(l) && GraphOk(cs, n) && CacheOk(cache)
    }

    /** What is cached is what the component would do. */
    ghost predicate CacheOk(m: map<nat, CacheEntry<V>>) {
      forall c :: c in m ==> c < |cs| && m[c].exit == Out(l, cs[c], m[c].entry)
    }

    /** New entry values from the exit values of the round before. */
    method MeetOnce(ins: seq<V>, x: seq<V>) returns (ins': seq<V>)
      requires Lawful(l) && GraphOk(cs, n) && Sized(cs, n, ins) && |x| == |cs| && AllIn(l, x)
      ensures Sized(cs, n, ins') && Entries(cs, n, ins') == Met(l, cs, Entries(cs, n, ins), x)
      ensures forall k :: 0 <= k < n && (forall c :: 0 <= c < |cs| ==> k != cs[c].lo) ==> ins'[k] == ins[k]
    {
      hide Lawful, GraphOk;
      Bounds(cs, n, ins) by {
      }
      ins' := ins;
      for i := 0 to |cs|
        invariant |ins'| == n
        invariant forall c :: i <= c < |cs| ==> ins'[cs[c].lo] == ins[cs[c].lo]
        invariant forall c :: 0 <= c < i ==> ins'[cs[c].lo] == Met(l, cs, Entries(cs, n, ins), x)[c]
        invariant forall k :: 0 <= k < n && (forall c :: 0 <= c < |cs| ==> k != cs[c].lo) ==> ins'[k] == ins[k]
      {
        var v := MeetAt(i, ins[cs[i].lo], x);
        ins' := ins'[cs[i].lo := v];
      }
    }

    method MeetAt(c: nat, old_in: V, x: seq<V>) returns (v: V)
      requires Lawful(l) && GraphOk(cs, n) && c < |cs| && |x| == |cs| && AllIn(l, x)
      ensures v == Folded(l, if c == 0 then old_in else l.top, x, cs[c])
    {
      hide Lawful, GraphOk, AllIn;
      ComponentFacts(cs, n, c);
      if cs[c].front {
        v := if c == 0 then old_in else l.top;
        for j := 0 to |cs[c].preds|
          invariant v == Fold(l, if c == 0 then old_in else l.top, x, cs[c].preds, j)
        {
          v := l.meet(v, x[cs[c].preds[j]]);
        }
      } else {
        v := x[c - 1];
        OneFold(l, x, c - 1);
      }
    }

    /** Run one component from `v`. */
    method TransferComponent(c: nat, v: V, ins: seq<V>, outs: seq<V>) returns (ins': seq<V>, outs': seq<V>, exit: V)
      requires c < |cs| && cs[c].lo < cs[c].hi <= n && |ins| == |outs| == n
      ensures Elsewhere(cs[c], ins, ins') && Elsewhere(cs[c], outs, outs')
      ensures Right(l, cs[c], v, ins', outs') && exit == Out(l, cs[c], v)
    {
      ins', outs', exit := ins, outs, v;
      for k := cs[c].lo to cs[c].hi
        invariant |ins'| == |outs'| == n && exit == Trace(l, cs[c].lo, k, v)
        invariant Elsewhere(cs[c], ins, ins') && Elsewhere(cs[c], outs, outs')
        invariant forall i :: cs[c].lo <= i < k ==>
                    ins'[i] == Trace(l, cs[c].lo, i, v) && outs'[i] == Trace(l, cs[c].lo, i + 1, v)
      {
        ins' := ins'[k := exit];
        exit := l.transfer(k, exit);
        outs' := outs'[k := exit];
      }
    }

    /** The whole run: from top downwards until nothing changes. The entry values found are
        the greatest solution and the exit values `x` follow from them, whatever the cache
        held. Inside the components everything follows from them, but for components that
        were already cached with the value they started and ended with: these keep the top
        values they were reset to. */
    method Transfer(ev: V) returns (ins: seq<V>, outs: seq<V>, x: seq<V>, ghost e: seq<V>)
      requires Valid() && ev in l.carrier
      modifies this
      ensures Valid() && |ins| == |outs| == n && Greatest(l, cs, ev, e) && |e| == |cs|
      ensures x == Outs(l, cs, e) && Settled(l, cs, ev, old(cache), e, ins, outs)
      ensures forall c :: 0 <= c < |cs| ==> c in cache && cache[c].entry == e[c]
    {
      hide Lawful, Greatest, Settled, Descent, GraphOk, Met, Outs, Total, Tracked, CacheOk;
      SizeFacts(cs, n);
      ghost var was := cache;
      ins, outs := seq(n, _ => l.top), seq(n, _ => l.top);
      x := seq(|cs|, _ => l.top);
      ins := ins[0 := ev];
      Bounds(cs, n, ins);
      e := Entries(cs, n, ins);
      InitialState(ev, ins, outs, x, e);
      var oldIns: seq<V>, oldOuts: seq<V>, oldX: seq<V> := [], [], [];
      ghost var first := true;
      ghost var e0 := e;
      while ins != oldIns || outs != oldOuts || x != oldX
        invariant Valid() && Sized(cs, n, ins) && |outs| == n && e == Entries(cs, n, ins) && |x| == |cs|
        invariant Descent(l, cs, ev, e, x)
        invariant if first then oldIns == [] && cache == was && Fresh(ev, ins, outs, x) else
                    && x == Outs(l, cs, e) && Settled(l, cs, ev, was, e, ins, outs) && Tracked(cache, e)
                    && Sized(cs, n, oldIns) && |oldX| == |cs| && e == Met(l, cs, Entries(cs, n, oldIns), oldX)
        decreases if first then 1 else 0, Total(l, e), if ins != oldIns || outs != oldOuts || x != oldX then 1 else 0
      {
        oldIns, oldOuts := ins, outs;
        ghost var was1 := cache;
        DescentIn(l, cs, ev, e, x);
        RoundDescends(l, cs, ev, e, x);
        ins := MeetOnce(ins, x);
        oldX := x;
        ghost var met := ins;
        ins, outs, x := TransferOnce(ins, outs);
        ghost var e' := Entries(cs, n, met);
        Bounds(cs, n, ins);
        assert e' == Entries(cs, n, ins);
        TotalDrops(l, e', e);
        TrackedNow(cache, e', met);
        if first {
          FirstRound(ev, was, oldIns, oldOuts, oldX, met, ins, outs, e, e');
        } else {
          LaterRound(ev, was, was1, oldIns, oldOuts, met, ins, outs, e, e');
          if e' == e {
            SettledSame(l, cs, n, ev, was, e, oldIns, oldOuts, ins, outs);
          }
        }
        e := e';
        first := false;
      }
      StableIsGreatest(l, cs, ev, e);
      TrackedMeans(cache, e);
    }

    ghost predicate Fresh(ev: V, ins: seq<V>, outs: seq<V>, x: seq<V>) {
      && |ins| == |outs| == n && n > 0 && |x| == |cs| && ins[0] == ev
      && (forall k :: 1 <= k < n ==> ins[k] == l.top)
      && (forall k :: 0 <= k < n ==> outs[k] == l.top)
      && (forall c :: 0 <= c < |cs| ==> x[c] == l.top)
    }

    ghost predicate Tracked(m: map<nat, CacheEntry<V>>, e: seq<V>) {
      |e| == |cs| && forall c :: 0 <= c < |cs| ==> c in m && m[c].entry == e[c]
    }

    lemma TrackedNow(m: map<nat, CacheEntry<V>>, e: seq<V>, ins: seq<V>)
      requires Sized(cs, n, ins) && e == Entries(cs, n, ins)
      requires forall c :: 0 <= c < |cs| ==> c in m && m[c].entry == ins[cs[c].lo]
      ensures Tracked(m, e)
    {
    }

    lemma TrackedMeans(m: map<nat, CacheEntry<V>>, e: seq<V>)
      requires Tracked(m, e)
      ensures |e| == |cs| && forall c :: 0 <= c < |cs| ==> c in m && m[c].entry == e[c]
    {
    }

    lemma InitialState(ev: V, ins: seq<V>, outs: seq<V>, x: seq<V>, e: seq<V>)
      requires Lawful(l) && GraphOk(cs, n) && ev in l.carrier && Sized(cs, n, ins) && e == Entries(cs, n, ins)
      requires |outs| == n && |x| == |cs| && Fresh(ev, ins, outs, x)
      ensures Descent(l, cs, ev, e, x)
    {
      hide Lawful, Descent;
      Bounds(cs, n, ins);
      FirstDescent(l, cs, ev, e, x);
    }

    /** The first round: what the cache has for the starting values is not run. */
    lemma FirstRound(ev: V, was: map<nat, CacheEntry<V>>, ins: seq<V>, outs: seq<V>, x: seq<V>, met: seq<V>,
                     ins': seq<V>, outs': seq<V>, e: seq<V>, e': seq<V>)
      requires Lawful(l) && GraphOk(cs, n) && ev in l.carrier && Fresh(ev, ins, outs, x) && Sized(cs, n, ins)
      requires e == Entries(cs, n, ins)
      requires Sized(cs, n, met) && e' == Entries(cs, n, met) == Met(l, cs, e, x) && |ins'| == |outs'| == n
      requires forall k :: 0 <= k < n && (forall c :: 0 <= c < |cs| ==> k != cs[c].lo) ==> met[k] == ins[k]
      requires forall c :: 0 <= c < |cs| ==>
                 Did(l, cs[c], Hit(was, c, met[cs[c].lo]), met[cs[c].lo], met, outs, ins', outs')
      ensures Settled(l, cs, ev, was, e', ins', outs')
    {
      hide Lawful, GraphOk, Met, Right;
      Bounds(cs, n, ins);
      FirstMeet(ev, ins, outs, x, e);
      forall c | 0 <= c < |cs|
        ensures if Stale(l, ev, was, e', c) then Raw(l, cs[c], e'[c], ins', outs')
                else Right(l, cs[c], e'[c], ins', outs')
      {
        if Hit(was, c, met[cs[c].lo]) {
          forall k: nat | cs[c].lo < k < cs[c].hi
            ensures met[k] == l.top
          {
            NotEntry(ins, c, k);
          }
        }
      }
    }

    lemma NotEntry(ins: seq<V>, c: nat, k: nat)
      requires Sized(cs, n, ins) && c < |cs| && cs[c].lo < k < cs[c].hi
      requires forall c, d :: 0 <= c < d < |cs| ==> cs[c].hi <= cs[d].lo
      ensures forall d :: 0 <= d < |cs| ==> k != cs[d].lo
    {
    }

    /** In the first round the meet changes nothing. */
    lemma FirstMeet(ev: V, ins: seq<V>, outs: seq<V>, x: seq<V>, e: seq<V>)
      requires Lawful(l) && GraphOk(cs, n) && ev in l.carrier && Fresh(ev, ins, outs, x) && Sized(cs, n, ins)
      requires e == Entries(cs, n, ins)
      ensures Met(l, cs, e, x) == e && forall c :: 0 <= c < |cs| ==> e[c] == Start(l, ev, c)
    {
      hide Lawful;
      Bounds(cs, n, ins);
      TopIn(l);
      forall c | 0 <= c < |cs|
        ensures e[c] == Start(l, ev, c) && Folded(l, Start(l, ev, c), x, cs[c]) == e[c]
      {
        var v, ps := Start(l, ev, c), cs[c].preds;
        FoldIsGlb(l, v, x, ps, |ps|, v);
        LeRefl(l, v);
        forall i | 0 <= i < |ps|
          ensures Le(l, v, ExitOf(l, x, ps[i]))
        {
        }
        LeAntisym(l, v, Fold(l, v, x, ps, |ps|));
      }
    }

    /** Later rounds: a component is run again exactly when its entry value has changed. */
    lemma LaterRound(ev: V, was: map<nat, CacheEntry<V>>, now: map<nat, CacheEntry<V>>, ins: seq<V>, outs: seq<V>,
                     met: seq<V>, ins': seq<V>, outs': seq<V>, e: seq<V>, e': seq<V>)
      requires Lawful(l) && GraphOk(cs, n) && Sized(cs, n, ins) && |outs| == n && e == Entries(cs, n, ins)
      requires Settled(l, cs, ev, was, e, ins, outs) && Tracked(now, e)
      requires Sized(cs, n, met) && e' == Entries(cs, n, met) && |ins'| == |outs'| == n && AllLe(l, e', e)
      requires forall c :: 0 <= c < |cs| ==> Le(l, e[c], Start(l, ev, c))
      requires forall k :: 0 <= k < n && (forall c :: 0 <= c < |cs| ==> k != cs[c].lo) ==> met[k] == ins[k]
      requires forall c :: 0 <= c < |cs| ==>
                 Did(l, cs[c], Hit(now, c, met[cs[c].lo]), met[cs[c].lo], met, outs, ins', outs')
      ensures Settled(l, cs, ev, was, e', ins', outs')
    {
      hide Lawful, GraphOk;
      Bounds(cs, n, ins);
      forall c | 0 <= c < |cs|
        ensures if Stale(l, ev, was, e', c) then Raw(l, cs[c], e'[c], ins', outs')
                else Right(l, cs[c], e'[c], ins', outs')
      {
        if e'[c] == e[c] {
          SameComponent(ins, met, c);
          CarryOver(l, cs[c], e[c], ins, outs, met, ins', outs');
        } else if e'[c] == Start(l, ev, c) {
          LeAntisym(l, e[c], e'[c]);
        }
      }
    }

    lemma SameComponent(ins: seq<V>, met: seq<V>, c: nat)
      requires Sized(cs, n, ins) && Sized(cs, n, met) && c < |cs|
      requires forall c, d :: 0 <= c < d < |cs| ==> cs[c].hi <= cs[d].lo
      requires met[cs[c].lo] == ins[cs[c].lo]
      requires forall k :: 0 <= k < n && (forall c :: 0 <= c < |cs| ==> k != cs[c].lo) ==> met[k] == ins[k]
      ensures forall k: nat :: cs[c].lo <= k < cs[c].hi ==> met[k] == ins[k]
    {
      forall k: nat | cs[c].lo < k < cs[c].hi
        ensures met[k] == ins[k]
      {
        NotEntry(ins, c, k);
      }
    }

    /** Run one component from its entry value, unless the cache has it. */
    method RunOrRecall(i: nat, ins: seq<V>, outs: seq<V>) returns (ins': seq<V>, outs': seq<V>, exit: V)
      requires CacheOk(cache) && i < |cs| && cs[i].lo < cs[i].hi <= n && |ins| == |outs| == n
      modifies this
      ensures CacheOk(cache) && cache == old(cache)[i := CacheEntry(ins[cs[i].lo], exit)]
      ensures exit == Out(l, cs[i], ins[cs[i].lo])
      ensures Elsewhere(cs[i], ins, ins') && Elsewhere(cs[i], outs, outs')
      ensures Did(l, cs[i], Hit(old(cache), i, ins[cs[i].lo]), ins[cs[i].lo], ins, outs, ins', outs')
    {
      hide Out, Right;
      var v := ins[cs[i].lo];
      ins', outs' := ins, outs;
      if i in cache && cache[i].entry == v {
        exit := cache[i].exit;
      } else {
        ins', outs', exit := TransferComponent(i, v, ins, outs);
        cache := cache[i := CacheEntry(v, exit)];
      }
    }

    /** The cache after the first `i` components of a round. */
    ghost function Updated(was: map<nat, CacheEntry<V>>, ins: seq<V>, i: nat): map<nat, CacheEntry<V>>
      requires Sized(cs, n, ins) && i <= |cs|
    {
      if i == 0 then was
      else Updated(was, ins, i - 1)[i - 1 := CacheEntry(ins[cs[i - 1].lo], Out(l, cs[i - 1], ins[cs[i - 1].lo]))]
    }

    lemma {:induction false} UpdatedAt(was: map<nat, CacheEntry<V>>, ins: seq<V>, i: nat, c: nat)
      requires Sized(cs, n, ins) && i <= |cs|
      ensures var m := Updated(was, ins, i);
              if c < i then c in m && m[c] == CacheEntry(ins[cs[c].lo], Out(l, cs[c], ins[cs[c].lo]))
              else (c in m <==> c in was) && (c in m ==> m[c] == was[c])
    {
      if i > 0 {
        UpdatedAt(was, ins, i - 1, c);
      }
    }

    lemma UpdatedNone(was: map<nat, CacheEntry<V>>, ins: seq<V>)
      requires Sized(cs, n, ins)
      ensures Updated(was, ins, 0) == was
    {
    }

    lemma UpdatedNext(was: map<nat, CacheEntry<V>>, ins: seq<V>, i: nat)
      requires Sized(cs, n, ins) && i < |cs|
      ensures Updated(was, ins, i + 1) ==
              Updated(was, ins, i)[i := CacheEntry(ins[cs[i].lo], Out(l, cs[i], ins[cs[i].lo]))]
      ensures Hit(Updated(was, ins, i), i, ins[cs[i].lo]) <==> Hit(was, i, ins[cs[i].lo])
    {
      UpdatedAt(was, ins, i, i);
    }

    lemma UpdatedAll(was: map<nat, CacheEntry<V>>, ins: seq<V>)
      requires Sized(cs, n, ins)
      ensures forall c :: 0 <= c < |cs| ==>
                c in Updated(was, ins, |cs|) && Updated(was, ins, |cs|)[c].entry == ins[cs[c].lo]
    {
      forall c | 0 <= c < |cs|
        ensures c in Updated(was, ins, |cs|) && Updated(was, ins, |cs|)[c].entry == ins[cs[c].lo]
      {
        UpdatedAt(was, ins, |cs|, c);
      }
    }

    /** Run every component from its entry value, unless the cache has it. */
    method TransferOnce(ins: seq<V>, outs: seq<V>) returns (ins': seq<V>, outs': seq<V>, x: seq<V>)
      requires Valid() && Sized(cs, n, ins) && |outs| == n
      modifies this
      ensures Valid() && |ins'| == |outs'| == n && x == Outs(l, cs, Entries(cs, n, ins))
      ensures forall c :: 0 <= c < |cs| ==> c in cache && cache[c].entry == ins[cs[c].lo] == ins'[cs[c].lo]
      ensures forall c :: 0 <= c < |cs| ==>
                Did(l, cs[c], Hit(old(cache), c, ins[cs[c].lo]), ins[cs[c].lo], ins, outs, ins', outs')
    {
      hide Lawful, GraphOk, Did, Out, Hit, Updated, Untouched;
      Bounds(cs, n, ins);
      ins', outs', x := ins, outs, [];
      UntouchedStart(ins, outs);
      assert Updated(cache, ins, 0) == cache by {
        UpdatedNone(cache, ins);
      }
      for i := 0 to |cs|
        invariant CacheOk(cache) && |ins'| == |outs'| == n && |x| == i
        invariant forall c :: 0 <= c < i ==> x[c] == Out(l, cs[c], ins[cs[c].lo])
        invariant cache == Updated(old(cache), ins, i)
        invariant forall c :: 0 <= c < i ==>
                    Did(l, cs[c], Hit(old(cache), c, ins[cs[c].lo]), ins[cs[c].lo], ins, outs, ins', outs')
        invariant forall c :: i <= c < |cs| ==> Untouched(cs[c], ins, outs, ins', outs')
      {
        UntouchedEntry(cs[i], ins, outs, ins', outs');
        UpdatedNext(old(cache), ins, i);
        ghost var ins0, outs0 := ins', outs';
        var exit;
        ins', outs', exit := RunOrRecall(i, ins', outs');
        KeepOthers(old(cache), ins, outs, ins0, outs0, ins', outs', i);
        DidCarries(l, cs[i], Hit(old(cache), i, ins[cs[i].lo]), ins[cs[i].lo], ins, outs, ins0, outs0, ins', outs');
        x := x + [exit];
      }
      UpdatedAll(old(cache), ins);
      forall c | 0 <= c < |cs|
        ensures ins'[cs[c].lo] == ins[cs[c].lo]
      {
        DidEntry(l, cs[c], Hit(old(cache), c, ins[cs[c].lo]), ins[cs[c].lo], ins, outs, ins', outs');
      }
      assert x == Outs(l, cs, Entries(cs, n, ins));
    }

    lemma UntouchedStart(ins: seq<V>, outs: seq<V>)
      ensures forall c :: 0 <= c < |cs| ==> Untouched(cs[c], ins, outs, ins, outs)
    {
    }

    /** Running component `i` does not disturb the others. */
    lemma KeepOthers(was: map<nat, CacheEntry<V>>, ins: seq<V>, outs: seq<V>, ins0: seq<V>, outs0: seq<V>, ins': seq<V>,
                     outs': seq<V>, i: nat)
      requires i < |cs| && Sized(cs, n, ins) && |outs| == n
      requires forall c, d :: 0 <= c < d < |cs| ==> cs[c].hi <= cs[d].lo
      requires |ins0| == |outs0| == n && Elsewhere(cs[i], ins0, ins') && Elsewhere(cs[i], outs0, outs')
      ensures forall c ::
                0 <= c < i && Did(l, cs[c], Hit(was, c, ins[cs[c].lo]), ins[cs[c].lo], ins, outs, ins0, outs0) ==>
                Did(l, cs[c], Hit(was, c, ins[cs[c].lo]), ins[cs[c].lo], ins, outs, ins', outs')
      ensures forall c :: i < c < |cs| && Untouched(cs[c], ins, outs, ins0, outs0) ==>
                Untouched(cs[c], ins, outs, ins', outs')
    {
    }
  }

  ghost predicate Hit<V>(cache: map<nat, CacheEntry<V>>, c: nat, v: V) {
    c in cache && cache[c].entry == v
  }

  ghost predicate Untouched<V>(c: Component, ins: seq<V>, outs: seq<V>, ins': seq<V>, outs': seq<V>) {
    |ins| == |ins'| && |outs| == |outs'| && forall k :: c.lo <= k < c.hi && k < |ins| && k < |outs| ==>
        ins'[k] == ins[k] && outs'[k] == outs[k]
  }

  /** On a hit `c` is as before, otherwise it is run from `v`. */
  ghost predicate Did<V>(l: Lattice<V>, c: Component, hit: bool, v: V, ins: seq<V>, outs: seq<V>, ins': seq<V>,
                         outs': seq<V>) {
    if hit then Untouched(c, ins, outs, ins', outs') else Right(l, c, v, ins', outs')
  }

  lemma UntouchedEntry<V>(c: Component, ins: seq<V>, outs: seq<V>, ins': seq<V>, outs': seq<V>)
    requires Untouched(c, ins, outs, ins', outs') && c.lo < c.hi <= |ins| && |outs| == |ins|
    ensures ins'[c.lo] == ins[c.lo]
  {
  }

  lemma CarryOver<V>(l: Lattice<V>, c: Component, v: V, ins: seq<V>, outs: seq<V>, met: seq<V>, ins': seq<V>,
                     outs': seq<V>)
    requires |ins| == |met| == |outs| && Untouched(c, met, outs, ins', outs')
    requires forall k: nat :: c.lo <= k < c.hi && k < |ins| ==> met[k] == ins[k]
    ensures Raw(l, c, v, ins, outs) ==> Raw(l, c, v, ins', outs')
    ensures Right(l, c, v, ins, outs) ==> Right(l, c, v, ins', outs')
  {
    if Right(l, c, v, ins, outs) {
      forall k: nat | c.lo <= k < c.hi && k < |ins'| && k < |outs'|
        ensures ins'[k] == Trace(l, c.lo, k, v) && outs'[k] == Trace(l, c.lo, k + 1, v)
      {
        RightAt(l, c, v, ins, outs, k);
      }
    }
  }

  lemma SizeFacts(cs: seq<Component>, n: nat)
    requires GraphOk(cs, n)
    ensures n > 0 && |cs| > 0
  {
    BoundsFrom(cs, n, 0);
  }

  lemma DescentIn<V(!new)>(l: Lattice<V>, cs: seq<Component>, ev: V, e: seq<V>, x: seq<V>)
    requires Lawful(l) && Descent(l, cs, ev, e, x)
    ensures |e| == |x| == |cs| && AllIn(l, x) && forall c :: 0 <= c < |cs| ==> Le(l, e[c], Start(l, ev, c))
  {
    forall c | 0 <= c < |cs|
      ensures Le(l, e[c], Start(l, ev, c))
    {
      LeRefl(l, e[c]);
    }
  }

  lemma DidCarries<V>(l: Lattice<V>, c: Component, hit: bool, v: V, ins: seq<V>, outs: seq<V>, ins0: seq<V>,
                      outs0: seq<V>, ins': seq<V>, outs': seq<V>)
    requires Untouched(c, ins, outs, ins0, outs0) && Did(l, c, hit, v, ins0, outs0, ins', outs')
    ensures Did(l, c, hit, v, ins, outs, ins', outs')
  {
  }

  lemma DidEntry<V>(l: Lattice<V>, c: Component, hit: bool, v: V, ins: seq<V>, outs: seq<V>, ins': seq<V>,
                    outs': seq<V>)
    requires Did(l, c, hit, v, ins, outs, ins', outs') && c.lo < c.hi <= |ins| && |ins| == |outs| == |ins'| == |outs'|
    requires v == ins[c.lo]
    ensures ins'[c.lo] == v
  {
    if !hit {
      RightAt(l, c, v, ins', outs', c.lo);
    }
  }

  lemma ComponentFacts(cs: seq<Component>, n: nat, c: nat)
    requires GraphOk(cs, n) && c < |cs|
    ensures (forall j :: 0 <= j < |cs[c].preds| ==> cs[c].preds[j] < |cs|)
    ensures !cs[c].front ==> c > 0 && cs[c].preds == [c - 1]
  {
    assert ComponentOk(cs, c);
  }

  lemma OneFold<V(!new)>(l: Lattice<V>, x: seq<V>, p: nat)
    requires Lawful(l) && AllIn(l, x) && p < |x|
    ensures Fold(l, l.top, x, [p], 1) == x[p]
  {
    assert Fold(l, l.top, x, [p], 0) == l.top;
  }
}
