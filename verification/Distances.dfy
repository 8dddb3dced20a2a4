/** Passes over a topologically numbered graph that replace shortest paths: the
    window before a node, and where transient execution is possible. */
module Distances {
  import opened Digraph

  type NodeRef = nat
  type Rows = map<NodeRef, set<NodeRef>>

  /** The largest value of an unsigned integer. */
  const MAX: nat := 0xFFFF_FFFF

  ghost predicate Numbered(fwd: Rows, rev: Rows, n: nat) {
    && Converse(fwd, rev)
    && (forall x: nat :: x in fwd <==> x < n)
    && (forall a: NodeRef, b: NodeRef :: Edge(fwd, a, b) ==> a < b && b < n)
  }

  /** Some path leads from `a` to `b` along at most `k` edges. */
  ghost predicate Within(fwd: Rows, a: NodeRef, b: NodeRef, k: nat) {
    exists p :: Path(fwd, p, a, b) && |p| - 1 <= k
  }

  lemma WithinSelf(fwd: Rows, a: NodeRef, k: nat)
    ensures Within(fwd, a, a, k)
  {
    assert Path(fwd, [a], a, a);
  }

  /** From another node, the path begins with a step. */
  lemma WithinStep(fwd: Rows, a: NodeRef, b: NodeRef, k: nat)
    requires a != b
    ensures Within(fwd, a, b, k) <==> k > 0 && exists s :: Edge(fwd, a, s) && Within(fwd, s, b, k - 1)
  {
    if Within(fwd, a, b, k) {
      var p :| Path(fwd, p, a, b) && |p| - 1 <= k;
      assert Edge(fwd, p[0], p[0 + 1]);
      PathSuffix(fwd, p, a, b, 1);
      assert Within(fwd, p[1], b, k - 1);
    }
    if k > 0 && exists s :: Edge(fwd, a, s) && Within(fwd, s, b, k - 1) {
      var s :| Edge(fwd, a, s) && Within(fwd, s, b, k - 1);
      var q :| Path(fwd, q, s, b) && |q| - 1 <= k - 1;
      assert Path(fwd, [a, s], a, s);
      PathAppend(fwd, [a, s], q, a, s, b);
    }
  }

  // ---------------------------------------------------------------- the window before a node

  /** `d` is the distance from `x` to `ref`, or the unsigned maximum if that is no larger. */
  ghost predicate IsDistance(fwd: Rows, ref: NodeRef, x: NodeRef, d: nat) {
    d <= MAX && forall k: nat {:trigger Within(fwd, x, ref, k)} :: k < MAX ==> (d <= k <==> Within(fwd, x, ref, k))
  }

  /** The least of the successors' distances. */
  method LeastOf(succs: set<NodeRef>, dist: map<NodeRef, nat>) returns (acc: nat)
    requires forall s :: s in dist ==> dist[s] <= MAX
    ensures acc <= MAX && (forall s :: s in succs && s in dist ==> acc <= dist[s])
    ensures acc == MAX || exists s :: s in succs && s in dist && dist[s] == acc
  {
    acc := MAX;
    var todo := succs;
    while todo != {}
      invariant todo <= succs && acc <= MAX && (forall s :: s in succs && s !in todo && s in dist ==> acc <= dist[s])
      invariant acc == MAX || exists s :: s in succs && s in dist && dist[s] == acc
    {
      var s :| s in todo;
      var d := if s in dist then dist[s] else MAX;
      if d < acc {
        acc := d;
      }
      todo := todo - {s};
    }
  }

  lemma DistanceStep(fwd: Rows, rev: Rows, n: nat, ref: NodeRef, x: NodeRef, dist: map<NodeRef, nat>, acc: nat)
    requires Numbered(fwd, rev, n) && x < n && x != ref
    requires forall s :: s in dist ==> IsDistance(fwd, ref, s, dist[s])
    requires forall s :: s in fwd[x] ==> s in dist
    requires acc <= MAX && (forall s :: s in fwd[x] && s in dist ==> acc <= dist[s])
    requires acc == MAX || exists s :: s in fwd[x] && s in dist && dist[s] == acc
    ensures IsDistance(fwd, ref, x, if acc < MAX then acc + 1 else acc)
  {
    hide Within;
    var d := if acc < MAX then acc + 1 else acc;
    forall k: nat | k < MAX
      ensures d <= k <==> Within(fwd, x, ref, k)
    {
      WithinStep(fwd, x, ref, k);
      if d <= k {
        var s :| s in fwd[x] && s in dist && dist[s] == acc;
        assert Edge(fwd, x, s);
        assert Within(fwd, s, ref, k - 1);
      }
      if Within(fwd, x, ref, k) {
        var s :| Edge(fwd, x, s) && Within(fwd, s, ref, k - 1);
        assert IsDistance(fwd, ref, s, dist[s]);
        assert dist[s] <= k - 1;
      }
    }
  }

  method DistancesTo(fwd: Rows, rev: Rows, n: nat, ref: NodeRef) returns (dist: map<NodeRef, nat>)
    requires Numbered(fwd, rev, n) && ref < n
    ensures (forall x: nat :: x in dist <==> x < n) && forall x :: x in dist ==> IsDistance(fwd, ref, x, dist[x])
  {
    hide IsDistance, Within;
    dist := map[ref := 0];
    SelfDistance(fwd, ref);
    var x := n;
    while x > 0
      invariant 0 <= x <= n
      invariant forall y: nat :: y in dist <==> (x <= y < n || y == ref)
      invariant forall y :: y in dist ==> IsDistance(fwd, ref, y, dist[y])
    {
      x := x - 1;
      if x !in dist {
        BoundedAll(fwd, ref, dist);
        var acc := LeastOf(fwd[x], dist);
        LaterSuccs(fwd, rev, n, x);
        DistanceStep(fwd, rev, n, ref, x, dist, acc);
        if acc < MAX {
          acc := acc + 1;
        }
        dist := dist[x := acc];
      }
    }
  }

  lemma LaterSuccs(fwd: Rows, rev: Rows, n: nat, x: NodeRef)
    requires Numbered(fwd, rev, n) && x < n
    ensures forall s: NodeRef :: s in fwd[x] ==> x < s < n
  {
    forall s: NodeRef | s in fwd[x]
      ensures x < s < n
    {
      assert Edge(fwd, x, s);
    }
  }

  lemma BoundedAll(fwd: Rows, ref: NodeRef, dist: map<NodeRef, nat>)
    requires forall y :: y in dist ==> IsDistance(fwd, ref, y, dist[y])
    ensures forall y :: y in dist ==> dist[y] <= MAX
  {
    forall y | y in dist
      ensures dist[y] <= MAX
    {
      assert IsDistance(fwd, ref, y, dist[y]);
    }
  }

  lemma SelfDistance(fwd: Rows, ref: NodeRef)
    ensures IsDistance(fwd, ref, ref, 0)
  {
    forall k: nat | k < MAX
      ensures Within(fwd, ref, ref, k)
    {
      WithinSelf(fwd, ref, k);
    }
  }

  datatype Visit = Is(ref: NodeRef) | Isnt(ref: NodeRef)

  ghost predicate InWindow(fwd: Rows, entry: NodeRef, exits: set<NodeRef>, ref: NodeRef, window: nat, x: NodeRef) {
    x == entry || x in exits || Within(fwd, x, ref, window)
  }

  /** Calls back once for every node, from the last to the first: `Is` for the entry, the
      exits and the nodes within the window before `ref`, `Isnt` for the others. The largest
      window takes all nodes, because its size is also the mark for "no path". */
  method ForEachPredInWindow(fwd: Rows, rev: Rows, n: nat, entry: NodeRef, exits: set<NodeRef>, ref: NodeRef,
                             window: nat)
    returns (calls: seq<Visit>)
    requires Numbered(fwd, rev, n) && ref < n && window <= MAX
    ensures |calls| == n
    ensures forall i :: 0 <= i < n ==>
              calls[i].ref == n - 1 - i &&
                (calls[i].Is? <==> window == MAX || InWindow(fwd, entry, exits, ref, window, n - 1 - i))
  {
    hide Within;
    var dist := DistancesTo(fwd, rev, n, ref);
    calls := [];
    var x := n;
    while x > 0
      invariant 0 <= x <= n && |calls| == n - x
      invariant forall i :: 0 <= i < n - x ==>
                  calls[i].ref == n - 1 - i &&
                    (calls[i].Is? <==> window == MAX || InWindow(fwd, entry, exits, ref, window, n - 1 - i))
    {
      x := x - 1;
      assert IsDistance(fwd, ref, x, dist[x]);
      assert window < MAX ==> (dist[x] <= window <==> Within(fwd, x, ref, window));
      if x == entry || x in exits || (x in dist && dist[x] <= window) {
        calls := calls + [Is(x)];
      } else {
        calls := calls + [Isnt(x)];
      }
    }
  }

  /** Without edges no path leads from 2 to 1, yet 2 is in the largest window before 1. */
  method LargestWindow() returns (calls: seq<Visit>)
    ensures |calls| == 3 && calls[0] == Is(2) && !InWindow(map[0 := {}, 1 := {}, 2 := {}], 0, {}, 1, MAX, 2)
  {
    var none: Rows := map[0 := {}, 1 := {}, 2 := {}];
    calls := ForEachPredInWindow(none, none, 3, 0, {}, 1, MAX);
    assert calls[0].ref == 2;
    WithinStep(none, 2, 1, MAX);
  }

  // ---------------------------------------------------------------- transient execution

  /** Which nodes are the entry, exits or fences, and which may introduce speculation. */
  datatype Marks = Marks(stops: set<NodeRef>, introducers: set<NodeRef>)

  /** An introducer reaches `x` along a path that after it meets neither entry, exit nor fence. */
  ghost predicate FenceFree(fwd: Rows, m: Marks, p: seq<NodeRef>, x: NodeRef) {
    && |p| >= 2 && p[|p| - 1] == x && p[0] in m.introducers
    && (forall i :: 0 <= i < |p| - 1 ==> Edge(fwd, p[i], p[i + 1]))
    && (forall i :: 1 <= i < |p| ==> p[i] !in m.stops)
  }

  ghost predicate Exposed(fwd: Rows, m: Marks, x: NodeRef) {
    exists p :: FenceFree(fwd, m, p, x)
  }

  lemma ExposedStep(fwd: Rows, rev: Rows, n: nat, m: Marks, x: NodeRef)
    requires Numbered(fwd, rev, n) && x < n
    ensures Exposed(fwd, m, x) <==>
            x !in m.stops && exists q :: q in rev[x] && (q in m.introducers || Exposed(fwd, m, q))
  {
    if p :| FenceFree(fwd, m, p, x) {
      var q := p[|p| - 2];
      assert Edge(fwd, p[|p| - 2], p[|p| - 2 + 1]);
      assert Edge(rev, x, q);
      if |p| > 2 {
        assert FenceFree(fwd, m, p[..|p| - 1], q);
      }
    }
    if x !in m.stops && exists q :: q in rev[x] && (q in m.introducers || Exposed(fwd, m, q)) {
      var q :| q in rev[x] && (q in m.introducers || Exposed(fwd, m, q));
      assert Edge(rev, x, q);
      assert Edge(fwd, q, x);
      if q in m.introducers {
        assert FenceFree(fwd, m, [q, x], x);
      } else {
        var p :| FenceFree(fwd, m, p, q);
        var p' := p + [x];
        forall i | 0 <= i < |p'| - 1
          ensures Edge(fwd, p'[i], p'[i + 1])
        {
          if i < |p| - 1 {
            assert Edge(fwd, p[i], p[i + 1]);
          }
        }
        assert FenceFree(fwd, m, p', x);
      }
    }
  }

  /** An introducer lies at least one and at most `k` edges before `x`. */
  ghost predicate Near(fwd: Rows, m: Marks, x: NodeRef, k: nat) {
    exists i :: i in m.introducers && After(fwd, i, x, k)
  }

  ghost predicate After(fwd: Rows, i: NodeRef, x: NodeRef, k: nat) {
    exists p :: Path(fwd, p, i, x) && 2 <= |p| <= k + 1
  }

  lemma NearStep(fwd: Rows, rev: Rows, n: nat, m: Marks, x: NodeRef, k: nat)
    requires Numbered(fwd, rev, n) && x < n
    ensures Near(fwd, m, x, k) <==> k > 0 && exists q :: q in rev[x] && (q in m.introducers || Near(fwd, m, q, k - 1))
  {
    if Near(fwd, m, x, k) {
      var i :| i in m.introducers && After(fwd, i, x, k);
      var p :| Path(fwd, p, i, x) && 2 <= |p| <= k + 1;
      var q := p[|p| - 2];
      assert Edge(fwd, p[|p| - 2], p[|p| - 2 + 1]);
      assert Edge(rev, x, q);
      if |p| > 2 {
        PathPrefix(fwd, p, i, x, |p| - 2);
        assert After(fwd, i, q, k - 1);
      }
    }
    if k > 0 && exists q :: q in rev[x] && (q in m.introducers || Near(fwd, m, q, k - 1)) {
      var q :| q in rev[x] && (q in m.introducers || Near(fwd, m, q, k - 1));
      assert Edge(rev, x, q);
      assert Edge(fwd, q, x);
      if q in m.introducers {
        assert Path(fwd, [q, x], q, x);
        assert After(fwd, q, x, k);
      } else {
        var i :| i in m.introducers && After(fwd, i, q, k - 1);
        var p :| Path(fwd, p, i, q) && 2 <= |p| <= k;
        assert Path(fwd, [q, x], q, x);
        PathAppend(fwd, p, [q, x], i, q, x);
        assert After(fwd, i, x, k);
      }
    }
  }

  /** `out` counts the edges since the last introducer, up to the speculation depth. */
  ghost predicate IsOut(fwd: Rows, m: Marks, depth: nat, x: NodeRef, out: nat) {
    out <= depth && forall k: nat {:trigger Near(fwd, m, x, k)} :: k < depth ==>
        (out <= k <==> x in m.introducers || Near(fwd, m, x, k))
  }

  lemma OutAt(fwd: Rows, m: Marks, depth: nat, x: NodeRef, out: nat, k: nat)
    requires IsOut(fwd, m, depth, x, out) && k < depth
    ensures out <= k <==> x in m.introducers || Near(fwd, m, x, k)
  {
    var near := Near(fwd, m, x, k);
  }

  /** The value before `x`: one less than the edges since the last introducer. */
  ghost predicate IsIn(fwd: Rows, m: Marks, depth: nat, x: NodeRef, inn: nat) {
    inn <= depth && forall k: nat {:trigger Near(fwd, m, x, k)} :: 0 < k <= depth ==> (inn < k <==> Near(fwd, m, x, k))
  }

  function Increment(x: nat): nat {
    (x + 1) % (MAX + 1)
  }

  method LeastIn(preds: set<NodeRef>, outs: map<NodeRef, nat>, depth: nat) returns (min: nat)
    requires forall p :: p in preds ==> p in outs && outs[p] <= depth
    ensures min <= depth && (forall p :: p in preds ==> min <= outs[p])
    ensures min == depth || exists p :: p in preds && outs[p] == min
  {
    min := depth;
    var todo := preds;
    while todo != {}
      invariant todo <= preds && min <= depth && (forall p :: p in preds && p !in todo ==> min <= outs[p])
      invariant min == depth || exists p :: p in preds && outs[p] == min
    {
      var p :| p in todo;
      if outs[p] < min {
        min := outs[p];
      }
      todo := todo - {p};
    }
  }

  lemma InStep(fwd: Rows, rev: Rows, n: nat, m: Marks, depth: nat, x: NodeRef, outs: map<NodeRef, nat>, min: nat)
    requires Numbered(fwd, rev, n) && x < n
    requires forall p :: p in rev[x] ==> p in outs && IsOut(fwd, m, depth, p, outs[p])
    requires min <= depth && (forall p :: p in rev[x] ==> min <= outs[p])
    requires min == depth || exists p :: p in rev[x] && outs[p] == min
    ensures IsIn(fwd, m, depth, x, min)
  {
    hide Near;
    forall k: nat | 0 < k <= depth
      ensures min < k <==> Near(fwd, m, x, k)
    {
      NearStep(fwd, rev, n, m, x, k);
      if min < k {
        var p :| p in rev[x] && outs[p] == min;
        assert p in m.introducers || Near(fwd, m, p, k - 1);
      }
      if Near(fwd, m, x, k) {
        var q :| q in rev[x] && (q in m.introducers || Near(fwd, m, q, k - 1));
        OutAt(fwd, m, depth, q, outs[q], k - 1);
      }
    }
  }

  lemma OutStep(fwd: Rows, m: Marks, depth: nat, x: NodeRef, inn: nat)
    requires depth < MAX && IsIn(fwd, m, depth, x, inn) && !Near(fwd, m, x, 0)
    ensures IsOut(fwd, m, depth, x,
                  if x in m.introducers then 0 else if Increment(inn) < depth then Increment(inn) else depth)
  {
    forall k: nat | k < depth && x !in m.introducers
      ensures Increment(inn) <= k <==> Near(fwd, m, x, k)
    {
      assert k > 0 ==> (inn < k <==> Near(fwd, m, x, k));
    }
  }

  /** Along a path the numbers increase. */
  lemma {:induction false} PathClimbs(fwd: Rows, rev: Rows, n: nat, p: seq<NodeRef>, i: nat)
    requires Numbered(fwd, rev, n) && i < |p| && forall j :: 0 <= j < |p| - 1 ==> Edge(fwd, p[j], p[j + 1])
    ensures i <= p[i]
    decreases i
  {
    if i > 0 {
      PathClimbs(fwd, rev, n, p, i - 1);
      assert Edge(fwd, p[i - 1], p[i - 1 + 1]);
    }
  }

  /** Wherever speculation can spread, an introducer is no further away than the node's number. */
  lemma ExposedIsNear(fwd: Rows, rev: Rows, n: nat, m: Marks, x: NodeRef, k: nat)
    requires Numbered(fwd, rev, n) && x <= k && Exposed(fwd, m, x)
    ensures Near(fwd, m, x, k)
  {
    var p :| FenceFree(fwd, m, p, x);
    PathClimbs(fwd, rev, n, p, |p| - 1);
    assert Path(fwd, p, p[0], x);
    assert After(fwd, p[0], x, k);
  }

  /** What is known of the value after `x`. At the largest depth adding one wraps around at
      the nodes without predecessors, and the value is no more than the node's number. */
  ghost predicate OutOk(fwd: Rows, m: Marks, depth: nat, x: NodeRef, out: nat) {
    out <= depth && if depth < MAX then IsOut(fwd, m, depth, x, out) else out <= x
  }

  /** One node of the second pass. */
  lemma TransStep(fwd: Rows, rev: Rows, n: nat, m: Marks, depth: nat, x: NodeRef, outs: map<NodeRef, nat>, min: nat)
    requires Numbered(fwd, rev, n) && x < n && depth <= MAX && (depth < MAX || n <= MAX)
    requires forall p :: p in rev[x] ==> p in outs && OutOk(fwd, m, depth, p, outs[p])
    requires min <= depth && (forall p :: p in rev[x] ==> min <= outs[p])
    requires min == depth || exists p :: p in rev[x] && outs[p] == min
    ensures Exposed(fwd, m, x) ==> (min < depth <==> Near(fwd, m, x, depth))
    ensures OutOk(fwd, m, depth, x,
                  if x in m.introducers then 0 else if Increment(min) < depth then Increment(min) else depth)
  {
    hide Exposed, Near, IsIn, IsOut;
    if depth < MAX {
      InStep(fwd, rev, n, m, depth, x, outs, min);
      InMeans(fwd, rev, n, m, depth, x, min);
      OutStep(fwd, m, depth, x, min);
    } else {
      EarlierPreds(fwd, rev, n, x);
      ExposedStep(fwd, rev, n, m, x);
      if Exposed(fwd, m, x) {
        ExposedIsNear(fwd, rev, n, m, x, depth);
      }
    }
  }

  /** First every node to which speculation can spread, then only those near enough to where it starts. */
  method InitTrans(fwd: Rows, rev: Rows, n: nat, m: Marks, depth: nat) returns (trans: seq<bool>)
    requires Numbered(fwd, rev, n) && depth <= MAX && (depth < MAX || n <= MAX)
    ensures |trans| == n && forall x: nat :: x < n ==> (trans[x] <==> Exposed(fwd, m, x) && Near(fwd, m, x, depth))
  {
    hide Exposed, Near, OutOk;
    trans := Spread(fwd, rev, n, m);
    ghost var spread := trans;
    var outs: map<NodeRef, nat> := map[];
    for x := 0 to n
      invariant |trans| == n && (forall y: nat :: y in outs <==> y < x)
      invariant forall y :: y in outs ==> OutOk(fwd, m, depth, y, outs[y]) && outs[y] <= depth
      invariant forall y: nat :: y < x ==> (trans[y] <==> Exposed(fwd, m, y) && Near(fwd, m, y, depth))
      invariant forall y: nat :: x <= y < n ==> trans[y] == spread[y]
    {
      EarlierPreds(fwd, rev, n, x);
      var min := LeastIn(rev[x], outs, depth);
      TransStep(fwd, rev, n, m, depth, x, outs, min);
      if min >= depth {
        trans := trans[x := false];
      }
      if x in m.introducers {
        min := 0;
      } else {
        min := if Increment(min) < depth then Increment(min) else depth;
      }
      outs := outs[x := min];
    }
  }

  lemma EarlierPreds(fwd: Rows, rev: Rows, n: nat, x: NodeRef)
    requires Numbered(fwd, rev, n) && x < n
    ensures x in rev && forall p :: p in rev[x] ==> p < x
  {
    assert x in fwd;
    forall p: NodeRef | p in rev[x]
      ensures p < x
    {
      assert Edge(rev, x, p);
      assert Edge(fwd, p, x);
    }
  }

  lemma InMeans(fwd: Rows, rev: Rows, n: nat, m: Marks, depth: nat, x: NodeRef, inn: nat)
    requires Numbered(fwd, rev, n) && x < n && IsIn(fwd, m, depth, x, inn)
    ensures (inn < depth <==> Near(fwd, m, x, depth)) && !Near(fwd, m, x, 0)
  {
    if depth > 0 {
      assert inn < depth <==> Near(fwd, m, x, depth);
    }
    NearStep(fwd, rev, n, m, x, 0);
  }

  method Spread(fwd: Rows, rev: Rows, n: nat, m: Marks) returns (trans: seq<bool>)
    requires Numbered(fwd, rev, n)
    ensures |trans| == n && forall x: nat :: x < n ==> (trans[x] <==> Exposed(fwd, m, x))
  {
    hide Exposed;
    trans := [];
    for x := 0 to n
      invariant |trans| == x && forall y: nat :: y < x ==> (trans[y] <==> Exposed(fwd, m, y))
    {
      ExposedStep(fwd, rev, n, m, x);
      EarlierPreds(fwd, rev, n, x);
      var t := false;
      if x !in m.stops {
        var preds := rev[x];
        while preds != {} && !t
          invariant preds <= rev[x]
          invariant t <==> exists q :: q in rev[x] && q !in preds && (q in m.introducers || Exposed(fwd, m, q))
          decreases |preds|
        {
          var q :| q in preds;
          t := q in m.introducers || trans[q];
          preds := preds - {q};
        }
      }
      trans := trans + [t];
    }
  }
}
