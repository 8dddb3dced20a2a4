/** Clean-up of a control-flow graph: removing what leads nowhere, and numbering
    the nodes along the edges. */
module Cleanup {
  import opened Digraph
  import opened Binrel

  type NodeRef = nat
  type Rows = map<NodeRef, set<NodeRef>>

  ghost predicate Indexed(fwd: Rows, rev: Rows, n: nat) {
    && Converse(fwd, rev)
    && Closed(fwd)
    && (forall x: nat :: x in fwd <==> x < n)
  }

  // ---------------------------------------------------------------- removing dead ends

  ghost function Restrict(m: Rows, gone: set<NodeRef>): Rows {
    map x | x in m && x !in gone :: m[x] - gone
  }

  ghost predicate ReachesExit(fwd: Rows, exits: set<NodeRef>, x: NodeRef) {
    exists e :: e in exits && Reach(fwd, x, e)
  }

  ghost predicate HasWayOn(fwd: Rows, gone: set<NodeRef>, x: NodeRef) {
    exists y :: Edge(fwd, x, y) && y !in gone
  }

  /** Deleted nodes reach no exit, and live ones that lead nowhere are still to be looked at. */
  ghost predicate Pruning(fwd: Rows, exits: set<NodeRef>, deleted: set<NodeRef>, todo: set<NodeRef>) {
    && deleted <= fwd.Keys && todo <= fwd.Keys && todo !! deleted && todo !! exits
    && (forall x :: x in deleted ==> !ReachesExit(fwd, exits, x))
    && (forall x :: x in fwd && x !in deleted && x !in exits && x !in todo ==> HasWayOn(fwd, deleted, x))
  }

  lemma PruneKeep(fwd: Rows, exits: set<NodeRef>, deleted: set<NodeRef>, todo: set<NodeRef>, ref: NodeRef)
    requires Pruning(fwd, exits, deleted, todo) && ref in todo && Restrict(fwd, deleted)[ref] != {}
    ensures Pruning(fwd, exits, deleted, todo - {ref})
  {
    var y :| y in Restrict(fwd, deleted)[ref];
    assert Edge(fwd, ref, y);
  }

  lemma PruneDelete(fwd: Rows, rev: Rows, exits: set<NodeRef>, deleted: set<NodeRef>, todo: set<NodeRef>, ref: NodeRef)
    requires Converse(fwd, rev) && Closed(fwd) && Acyclic(fwd) && (forall e :: e in exits ==> e in fwd && fwd[e] == {})
    requires Pruning(fwd, exits, deleted, todo) && ref in todo && Restrict(fwd, deleted)[ref] == {}
    ensures Pruning(fwd, exits, deleted + {ref}, (todo - {ref}) + Restrict(rev, deleted)[ref])
  {
    hide Acyclic;
    var deleted', todo' := deleted + {ref}, (todo - {ref}) + Restrict(rev, deleted)[ref];
    assert forall y :: Edge(fwd, ref, y) ==> y in deleted by {
      assert forall y :: y in fwd[ref] && y !in deleted ==> y in Restrict(fwd, deleted)[ref];
    }
    if ReachesExit(fwd, exits, ref) {
      var e :| e in exits && Reach(fwd, ref, e);
      ReachPlusSplit(fwd, ref, e);
      var s := FirstStep(fwd, ref, e);
      assert false;
    }
    forall p | p in Restrict(rev, deleted)[ref]
      ensures p in fwd && p !in deleted' && p !in exits
    {
      assert Edge(rev, ref, p);
      assert Edge(fwd, p, ref);
      NoLoop(fwd, p, ref);
    }
    forall x | x in fwd && x !in deleted' && x !in exits && x !in todo'
      ensures HasWayOn(fwd, deleted', x)
    {
      var y :| Edge(fwd, x, y) && y !in deleted;
      assert y == ref ==> Edge(rev, ref, x);
    }
  }

  lemma NoLoop(fwd: Rows, a: NodeRef, b: NodeRef)
    requires Acyclic(fwd) && Edge(fwd, a, b)
    ensures a != b
  {
    ReachEdge(fwd, a, b);
  }

  lemma RestrictMore(m: Rows, gone: set<NodeRef>, ref: NodeRef)
    ensures Without(Restrict(m, gone), ref) == Restrict(m, gone + {ref})
  {
    forall x | x in m && x !in gone && x != ref
      ensures m[x] - gone - {ref} == m[x] - (gone + {ref})
    {
    }
  }

  lemma RestrictNone(m: Rows)
    ensures Restrict(m, {}) == m
  {
    assert forall x :: x in m ==> m[x] - {} == m[x];
  }

  /** When nothing is left to look at, exactly the nodes that reach no exit are gone. */
  lemma PruneExact(fwd: Rows, exits: set<NodeRef>, deleted: set<NodeRef>)
    requires Closed(fwd) && Acyclic(fwd) && (forall e :: e in exits ==> e in fwd && fwd[e] == {})
    requires Pruning(fwd, exits, deleted, {})
    ensures forall x :: x in fwd ==> (x in deleted <==> !ReachesExit(fwd, exits, x))
  {
    hide Acyclic;
    var stuck := set x | x in fwd && x !in deleted && !ReachesExit(fwd, exits, x);
    if stuck != {} {
      var a := AcyclicSink(fwd, stuck);
      assert a !in exits by {
        ReachRefl(fwd, a);
      }
      var y :| Edge(fwd, a, y) && y !in deleted;
      if ReachesExit(fwd, exits, y) {
        var e :| e in exits && Reach(fwd, y, e);
        ReachEdge(fwd, a, y);
        ReachTrans(fwd, a, y, e);
        assert false;
      }
      assert false;
    }
  }

  // ---------------------------------------------------------------- renaming

  /** `m` is one-to-one onto 0, 1, ..., `n` - 1. */
  ghost predicate Renaming(m: map<NodeRef, NodeRef>, n: nat) {
    && (forall x :: x in m ==> m[x] < n)
    && (forall x, y :: x in m && y in m && m[x] == m[y] ==> x == y)
    && (forall i: nat :: i < n ==> Hit(m, i))
  }

  ghost predicate Hit(m: map<NodeRef, NodeRef>, i: nat) {
    exists x :: x in m && m[x] == i
  }

  /** `fwd'` is the part of `fwd` on the names of `m`, renamed. */
  ghost predicate Renamed(fwd: Rows, m: map<NodeRef, NodeRef>, fwd': Rows) {
    && (forall x, y :: x in m && y in m ==> (Edge(fwd, x, y) <==> Edge(fwd', m[x], m[y])))
    && (forall i, j :: Edge(fwd', i, j) ==> Hit(m, i) && Hit(m, j))
  }

  ghost function Image(m: map<NodeRef, NodeRef>, p: seq<NodeRef>): (q: seq<NodeRef>)
    requires forall i :: 0 <= i < |p| ==> p[i] in m
    ensures |q| == |p| && forall i :: 0 <= i < |p| ==> q[i] == m[p[i]]
  {
    seq(|p|, i requires 0 <= i < |p| => m[p[i]])
  }

  /** Paths between renamed nodes are renamed paths. */
  lemma PathRenamed(fwd: Rows, m: map<NodeRef, NodeRef>, n: nat, fwd': Rows, p: seq<NodeRef>, a: NodeRef, b: NodeRef)
    requires Renaming(m, n) && Renamed(fwd, m, fwd') && a in m && b in m && forall i :: 0 <= i < |p| ==> p[i] in m
    ensures Path(fwd, p, a, b) <==> Path(fwd', Image(m, p), m[a], m[b])
  {
    hide Hit;
    var q := Image(m, p);
    forall i | 0 <= i < |p| - 1
      ensures Edge(fwd, p[i], p[i + 1]) <==> Edge(fwd', q[i], q[i + 1])
    {
    }
  }

  /** Every path of the renamed relation is a renamed one. */
  lemma {:induction false} PathComesFrom(m: map<NodeRef, NodeRef>, n: nat, q: seq<NodeRef>) returns (p: seq<NodeRef>)
    requires Renaming(m, n) && forall i :: 0 <= i < |q| ==> q[i] < n
    ensures (forall i :: 0 <= i < |p| ==> p[i] in m) && Image(m, p) == q
    decreases |q|
  {
    if q == [] {
      p := [];
    } else {
      p := PathComesFrom(m, n, q[..|q| - 1]);
      assert Hit(m, q[|q| - 1]);
      var x :| x in m && m[x] == q[|q| - 1];
      p := p + [x];
    }
  }

  /** Build the renamed relation: all its nodes, then all its edges. */
  method Rename(fwd: Rows, m: map<NodeRef, NodeRef>, n: nat) returns (po: Relation<NodeRef>)
    requires Renaming(m, n) && fwd.Keys == m.Keys && Closed(fwd)
    ensures fresh(po) && Indexed(po.fwd, po.rev, n) && Renamed(fwd, m, po.fwd)
  {
    hide Renaming, Hit;
    po := AddNames(m);
    RenamingHits(m, n);
    RenamingInjective(m, n);
    var srcs := fwd.Keys;
    while srcs != {}
      invariant srcs <= fwd.Keys && Nodes(po.fwd, po.rev, m) && Partly(fwd, m, po.fwd, srcs, {})
    {
      var src :| src in srcs;
      AddEdges(po, fwd, m, srcs, src);
      srcs := srcs - {src};
    }
  }

  /** The relation has the new names for its nodes. */
  ghost predicate Nodes(fwd': Rows, rev': Rows, m: map<NodeRef, NodeRef>) {
    && Mirrored(fwd', rev') && fwd'.Keys == rev'.Keys
    && (forall i :: i in fwd' <==> Hit(m, i))
    && (forall i, j :: Edge(fwd', i, j) ==> Hit(m, i) && Hit(m, j))
  }

  /** The edges are there, but for those from `srcs` that are not in `given`. */
  ghost predicate Partly(fwd: Rows, m: map<NodeRef, NodeRef>, fwd': Rows, srcs: set<NodeRef>,
                         given: set<(NodeRef, NodeRef)>) {
    forall x, y :: x in m && y in m ==> (Edge(fwd', m[x], m[y]) <==> Edge(fwd, x, y) && (x !in srcs || (x, y) in given))
  }

  method AddNames(m: map<NodeRef, NodeRef>) returns (po: Relation<NodeRef>)
    ensures fresh(po) && Nodes(po.fwd, po.rev, m) && (forall i, j :: !Edge(po.fwd, i, j))
  {
    po := new Relation<NodeRef>();
    var names := m.Keys;
    while names != {}
      invariant names <= m.Keys && po.Valid() && (forall i, j :: !Edge(po.fwd, i, j))
      invariant forall i :: i in po.fwd <==> exists x :: x in m && x !in names && m[x] == i
      invariant po.fwd.Keys == po.rev.Keys
    {
      var x :| x in names;
      po.AddNode(m[x]);
      names := names - {x};
    }
  }

  /** The edges of one node. */
  method AddEdges(po: Relation<NodeRef>, fwd: Rows, m: map<NodeRef, NodeRef>, srcs: set<NodeRef>, src: NodeRef)
    requires fwd.Keys == m.Keys && Closed(fwd) && src in srcs && srcs <= fwd.Keys
    requires forall x, y :: x in m && y in m && m[x] == m[y] ==> x == y
    requires Nodes(po.fwd, po.rev, m) && Partly(fwd, m, po.fwd, srcs, {})
    modifies po
    ensures Nodes(po.fwd, po.rev, m) && Partly(fwd, m, po.fwd, srcs - {src}, {})
  {
    hide Hit;
    var dsts := fwd[src];
    while dsts != {}
      invariant dsts <= fwd[src] && Nodes(po.fwd, po.rev, m)
      invariant Partly(fwd, m, po.fwd, srcs, set y | y in fwd[src] && y !in dsts :: (src, y))
    {
      var dst :| dst in dsts;
      assert Edge(fwd, src, dst);
      HitAt(m, src);
      HitAt(m, dst);
      ghost var before := po.fwd;
      po.Insert(m[src], m[dst]);
      PartlyMore(fwd, m, before, po.fwd, srcs, src, dsts, dst);
      dsts := dsts - {dst};
    }
    PartlyDone(fwd, m, po.fwd, srcs, src);
  }

  lemma HitAt(m: map<NodeRef, NodeRef>, x: NodeRef)
    requires x in m
    ensures Hit(m, m[x])
  {
  }

  lemma PartlyMore(fwd: Rows, m: map<NodeRef, NodeRef>, before: Rows, after: Rows, srcs: set<NodeRef>, src: NodeRef,
                   dsts: set<NodeRef>, dst: NodeRef)
    requires src in srcs && src in fwd && src in m && dst in m && dst in dsts && dsts <= fwd[src]
    requires forall x, y :: x in m && y in m && m[x] == m[y] ==> x == y
    requires Partly(fwd, m, before, srcs, set y | y in fwd[src] && y !in dsts :: (src, y))
    requires forall i, j :: Edge(after, i, j) <==> Edge(before, i, j) || (i == m[src] && j == m[dst])
    ensures Partly(fwd, m, after, srcs, set y | y in fwd[src] && y !in dsts - {dst} :: (src, y))
  {
  }

  lemma PartlyDone(fwd: Rows, m: map<NodeRef, NodeRef>, fwd': Rows, srcs: set<NodeRef>, src: NodeRef)
    requires src in srcs && src in fwd && Partly(fwd, m, fwd', srcs, set y | y in fwd[src] && y !in {} :: (src, y))
    ensures Partly(fwd, m, fwd', srcs - {src}, {})
  {
  }

  lemma RenamingInjective(m: map<NodeRef, NodeRef>, n: nat)
    requires Renaming(m, n)
    ensures forall x, y :: x in m && y in m && m[x] == m[y] ==> x == y
  {
  }

  lemma RenamingHits(m: map<NodeRef, NodeRef>, n: nat)
    requires Renaming(m, n)
    ensures forall i: nat :: Hit(m, i) <==> i < n
  {
  }

  // ---------------------------------------------------------------- compacting

  ghost predicate Increasing(m: map<NodeRef, NodeRef>) {
    forall x, y :: x in m && y in m && x < y ==> m[x] < m[y]
  }

  /** A name is kept just when nothing below it has gone. */
  ghost predicate KeepsLow(m: map<NodeRef, NodeRef>, deleted: set<NodeRef>) {
    forall x :: x in m ==> m[x] <= x && (m[x] == x <==> forall y: nat :: y < x ==> y !in deleted)
  }

  /** Number what is left, in order. */
  method NewNames(n: nat, deleted: set<NodeRef>) returns (m: map<NodeRef, NodeRef>, count: nat)
    ensures (forall x: nat :: x in m <==> x < n && x !in deleted)
    ensures Increasing(m) && Renaming(m, count) && KeepsLow(m, deleted) && count <= n
  {
    hide Increasing, Renaming, KeepsLow;
    m, count := map[], 0;
    NoNames(deleted);
    for k := 0 to n
      invariant forall x: nat :: x in m <==> x < k && x !in deleted
      invariant Increasing(m) && Renaming(m, count) && KeepsLow(m, deleted) && count <= k
      invariant count == k <==> forall y: nat :: y < k ==> y !in deleted
    {
      if k !in deleted {
        ghost var prev := m;
        m := m[k := count];
        OneMoreName(prev, m, k, count);
        OneMoreLow(prev, m, deleted, k, count);
        count := count + 1;
      }
    }
  }

  lemma NoNames(deleted: set<NodeRef>)
    ensures Increasing(map[]) && Renaming(map[], 0) && KeepsLow(map[], deleted)
  {
  }

  lemma OneMoreLow(m: map<NodeRef, NodeRef>, m': map<NodeRef, NodeRef>, deleted: set<NodeRef>, k: NodeRef, count: nat)
    requires KeepsLow(m, deleted) && m' == m[k := count] && count <= k
    requires count == k <==> forall y: nat :: y < k ==> y !in deleted
    ensures KeepsLow(m', deleted)
  {
  }

  lemma OneMoreName(m: map<NodeRef, NodeRef>, m': map<NodeRef, NodeRef>, k: NodeRef, count: nat)
    requires Increasing(m) && Renaming(m, count) && m' == m[k := count] && forall x :: x in m ==> x < k
    ensures Increasing(m') && Renaming(m', count + 1)
  {
    forall i: nat | i < count + 1
      ensures Hit(m', i)
    {
      if i < count {
        assert Hit(m, i);
        var x :| x in m && m[x] == i;
        assert m'[x] == i;
      } else {
        assert m'[k] == i;
      }
    }
  }

  /** Move every kept node to its new place; places only go down, so nothing is overwritten too early. */
  method Compact<N>(nodes: seq<N>, m: map<NodeRef, NodeRef>, count: nat, ghost deleted: set<NodeRef>)
    returns (nodes': seq<N>)
    requires (forall x: nat :: x in m <==> x < |nodes| && x !in deleted) && Increasing(m) && Renaming(m, count)
    requires KeepsLow(m, deleted)
    requires count <= |nodes|
    ensures |nodes'| == count && forall x :: x in m ==> nodes'[m[x]] == nodes[x]
  {
    hide Renaming, KeepsLow, Increasing;
    assert forall x :: x in m ==> m[x] <= x by {
      NamesLow(m, deleted);
    }
    nodes' := nodes;
    for k := 0 to |nodes|
      invariant |nodes'| == |nodes|
      invariant forall i :: k <= i < |nodes| ==> nodes'[i] == nodes[i]
      invariant forall x :: x in m && x < k ==> nodes'[m[x]] == nodes[x]
    {
      if k in m {
        CompactStep(nodes, nodes', m, k);
        nodes' := nodes'[m[k] := nodes'[k]];
      }
    }
    assert forall x :: x in m ==> m[x] < count by {
      RenamingBelow(m, count);
    }
    nodes' := nodes'[..count];
  }

  lemma CompactStep<N>(nodes: seq<N>, nodes': seq<N>, m: map<NodeRef, NodeRef>, k: NodeRef)
    requires |nodes'| == |nodes| && k < |nodes| && k in m && Increasing(m) && forall x :: x in m ==> m[x] <= x
    requires nodes'[k] == nodes[k] && forall x :: x in m && x < k ==> nodes'[m[x]] == nodes[x]
    ensures forall x :: x in m && x < k + 1 ==> nodes'[m[k] := nodes'[k]][m[x]] == nodes[x]
  {
  }

  lemma NamesLow(m: map<NodeRef, NodeRef>, deleted: set<NodeRef>)
    requires KeepsLow(m, deleted)
    ensures forall x :: x in m ==> m[x] <= x
  {
  }

  lemma RenamingBelow(m: map<NodeRef, NodeRef>, n: nat)
    requires Renaming(m, n)
    ensures forall x :: x in m ==> m[x] < n
  {
  }

  // ---------------------------------------------------------------- sorting

  /** The successors of `r` not yet listed. */
  ghost function Waiting(fwd: Rows, order: seq<NodeRef>, r: NodeRef): set<NodeRef> {
    if r in fwd then set s | s in fwd[r] && s !in order else {}
  }

  ghost predicate Counts(fwd: Rows, order: seq<NodeRef>, n: nat, ref2n: seq<nat>) {
    |ref2n| == n && forall r: nat :: r < n && r !in order ==> ref2n[r] == |Waiting(fwd, order, r)|
  }

  ghost predicate HeapOk(order: seq<NodeRef>, ref2n: seq<nat>, heap: set<(nat, NodeRef)>) {
    forall p :: p in heap <==> p.1 < |ref2n| && p.1 !in order && p.0 == ref2n[p.1]
  }

  predicate PairLess(p: (nat, NodeRef), q: (nat, NodeRef)) {
    p.0 < q.0 || (p.0 == q.0 && p.1 < q.1)
  }

  /** The heap's first pair. */
  method First(heap: set<(nat, NodeRef)>) returns (p: (nat, NodeRef))
    requires heap != {}
    ensures p in heap && forall q :: q in heap ==> q == p || PairLess(p, q)
  {
    p :| p in heap;
    var rest := heap - {p};
    while rest != {}
      invariant rest <= heap && p in heap && p !in rest
      invariant forall q :: q in heap && q !in rest ==> q == p || PairLess(p, q)
    {
      var q :| q in rest;
      rest := rest - {q};
      if PairLess(q, p) {
        p := q;
      }
    }
  }

  lemma WaitingLeft(fwd: Rows, order: seq<NodeRef>, r: NodeRef)
    requires Closed(fwd)
    ensures forall s :: s in Waiting(fwd, order, r) ==> Edge(fwd, r, s) && s in fwd && s !in order
  {
    forall s | s in Waiting(fwd, order, r)
      ensures Edge(fwd, r, s) && s in fwd
    {
      assert Edge(fwd, r, s);
    }
  }

  /** Some node has nothing left to wait for. */
  lemma FirstIsReady(fwd: Rows, order: seq<NodeRef>, n: nat, ref2n: seq<nat>, heap: set<(nat, NodeRef)>,
                     p: (nat, NodeRef))
    requires Closed(fwd) && Acyclic(fwd) && (forall x: nat :: x in fwd <==> x < n) && Counts(fwd, order, n, ref2n)
    requires HeapOk(order, ref2n, heap)
    requires p in heap && forall q :: q in heap ==> q == p || PairLess(p, q)
    ensures p.0 == 0 && p.1 < n && p.1 !in order && ref2n[p.1] == 0 && Waiting(fwd, order, p.1) == {}
  {
    hide Acyclic;
    var left := set x | x in fwd && x !in order;
    assert p.1 in left;
    var a := AcyclicSink(fwd, left);
    WaitingLeft(fwd, order, a);
    assert Waiting(fwd, order, a) == {};
    assert (ref2n[a], a) in heap;
    assert ref2n[p.1] == |Waiting(fwd, order, p.1)|;
  }

  /** Listing `ref` takes one from the count of each of its predecessors. */
  lemma WaitingShrinks(fwd: Rows, rev: Rows, order: seq<NodeRef>, ref: NodeRef, r: NodeRef)
    requires Converse(fwd, rev) && ref in rev && ref !in order
    ensures |Waiting(fwd, order + [ref], r)| == |Waiting(fwd, order, r)| - (if r in rev[ref] then 1 else 0)
    ensures r in rev[ref] ==> |Waiting(fwd, order, r)| > 0
  {
    if r in rev[ref] {
      assert Edge(rev, ref, r);
      assert Edge(fwd, r, ref);
      assert Waiting(fwd, order + [ref], r) == Waiting(fwd, order, r) - {ref};
      assert ref in Waiting(fwd, order, r);
    } else {
      assert !Edge(rev, ref, r);
      assert !Edge(fwd, r, ref);
      assert Waiting(fwd, order + [ref], r) == Waiting(fwd, order, r);
    }
  }

  /** `r` is not listed and all its successors are. */
  ghost predicate CanBeNext(fwd: Rows, order: seq<NodeRef>, r: NodeRef) {
    r in fwd && r !in order && forall s :: s in fwd[r] ==> s in order
  }

  /** Every listed node is the least of those that could be listed at that place. */
  ghost predicate LeastFirst(fwd: Rows, order: seq<NodeRef>) {
    forall i, r: NodeRef :: 0 <= i < |order| && CanBeNext(fwd, order[..i], r) ==> order[i] <= r
  }

  lemma FirstIsLeast(fwd: Rows, order: seq<NodeRef>, n: nat, ref2n: seq<nat>, heap: set<(nat, NodeRef)>,
                     p: (nat, NodeRef))
    requires (forall x: nat :: x in fwd <==> x < n) && Counts(fwd, order, n, ref2n) && HeapOk(order, ref2n, heap)
    requires p in heap && p.0 == 0 && (forall q :: q in heap ==> q == p || PairLess(p, q)) && LeastFirst(fwd, order)
    ensures LeastFirst(fwd, order + [p.1])
  {
    var longer := order + [p.1];
    forall i, r: NodeRef | 0 <= i < |longer| && CanBeNext(fwd, longer[..i], r)
      ensures longer[i] <= r
    {
      if i < |order| {
        assert longer[..i] == order[..i];
      } else {
        assert longer[..i] == order;
        assert Waiting(fwd, order, r) == {};
        assert (ref2n[r], r) in heap;
      }
    }
  }

  lemma NoneListed(fwd: Rows)
    ensures LeastFirst(fwd, [])
  {
  }

  /** There is only one such list of all nodes. */
  lemma {:induction false} LeastFirstUnique(fwd: Rows, a: seq<NodeRef>, b: seq<NodeRef>, i: nat)
    requires SuccessorsFirst(fwd, a) && SuccessorsFirst(fwd, b) && LeastFirst(fwd, a) && LeastFirst(fwd, b)
    requires i <= |a| && i <= |b| && (forall x :: x in a ==> x in fwd) && (forall x :: x in b ==> x in fwd)
    ensures a[..i] == b[..i]
    decreases i
  {
    if i > 0 {
      LeastFirstUnique(fwd, a, b, i - 1);
      NextCanBe(fwd, a, i - 1);
      NextCanBe(fwd, b, i - 1);
      assert a[i - 1] == b[i - 1];
      assert a[..i] == a[..i - 1] + [a[i - 1]] && b[..i] == b[..i - 1] + [b[i - 1]];
    }
  }

  lemma NextCanBe(fwd: Rows, a: seq<NodeRef>, i: nat)
    requires SuccessorsFirst(fwd, a) && i < |a| && forall x :: x in a ==> x in fwd
    ensures CanBeNext(fwd, a[..i], a[i])
  {
    assert a[i] in a;
    assert forall b :: b in fwd[a[i]] ==> Edge(fwd, a[i], b);
  }

  class CFG<N> {
    var nodes: seq<N>
    var po: Relation<NodeRef>
    var entry: NodeRef
    var exits: set<NodeRef>

    ghost predicate Valid()
      reads this, po
    {
      Indexed(po.fwd, po.rev, |nodes|) && entry < |nodes| && forall e :: e in exits ==> e < |nodes|
    }

    constructor (nodes: seq<N>, po: Relation<NodeRef>, entry: NodeRef, exits: set<NodeRef>)
      requires Indexed(po.fwd, po.rev, |nodes|) && entry < |nodes| && forall e :: e in exits ==> e < |nodes|
      ensures Valid() && this.nodes == nodes && this.po == po && this.entry == entry && this.exits == exits
    {
      this.nodes, this.po, this.entry, this.exits := nodes, po, entry, exits;
    }

    method AllButExits() returns (todo: set<NodeRef>)
      ensures forall x: nat :: x in todo <==> x < |nodes| && x !in exits
    {
      todo := {};
      for i := 0 to |nodes|
        invariant forall x: nat :: x in todo <==> x < i && x !in exits
      {
        if i !in exits {
          todo := todo + {i};
        }
      }
    }

    /** Delete dead ends, in whatever order they come up. */
    method DeleteDeadEnds() returns (deleted: set<NodeRef>)
      requires Valid() && Acyclic(po.fwd) && forall e :: e in exits ==> po.fwd[e] == {}
      modifies po
      ensures po.fwd == Restrict(old(po.fwd), deleted) && po.rev == Restrict(old(po.rev), deleted) && po.Valid()
      ensures forall x :: x in old(po.fwd) ==> (x in deleted <==> !ReachesExit(old(po.fwd), exits, x))
      ensures deleted <= old(po.fwd.Keys)
    {
      hide Acyclic, Restrict, Pruning, Converse, Closed, Without, Mirrored, ReachesExit;
      ghost var fwd, rev := po.fwd, po.rev;
      IndexedFacts(fwd, rev, |nodes|);
      deleted := {};
      var todo := AllButExits();
      RestrictNone(fwd);
      RestrictNone(rev);
      PruneStart(fwd, exits, todo);
      while todo != {}
        invariant po.fwd == Restrict(fwd, deleted) && po.rev == Restrict(rev, deleted) && po.Valid()
        invariant Pruning(fwd, exits, deleted, todo)
        decreases |fwd.Keys - deleted|, |todo|
      {
        var ref :| ref in todo;
        PruneLive(fwd, rev, exits, deleted, todo, ref);
        if po.fwd[ref] == {} {
          var preds := po.rev[ref];
          PruneDelete(fwd, rev, exits, deleted, todo, ref);
          todo := (todo - {ref}) + preds;
          DeleteNode(ref, fwd, rev, deleted);
          ProperSubset(fwd.Keys - (deleted + {ref}), fwd.Keys - deleted, ref);
          deleted := deleted + {ref};
        } else {
          PruneKeep(fwd, exits, deleted, todo, ref);
          todo := todo - {ref};
        }
      }
      PruneExact(fwd, exits, deleted);
      PruneBound(fwd, exits, deleted, todo);
    }

    method DeleteNode(ref: NodeRef, ghost fwd: Rows, ghost rev: Rows, ghost deleted: set<NodeRef>)
      requires po.Valid() && ref in po.fwd && ref in po.rev
      requires po.fwd == Restrict(fwd, deleted) && po.rev == Restrict(rev, deleted)
      modifies po
      ensures po.Valid() && po.fwd == Restrict(fwd, deleted + {ref}) && po.rev == Restrict(rev, deleted + {ref})
    {
      RestrictMore(fwd, deleted, ref);
      RestrictMore(rev, deleted, ref);
      po.EraseNode(ref);
    }

    /** Remove exactly the nodes that cannot reach an exit, and close the gaps in the
        numbering. The entry and the exits keep their names: these still name the
        same nodes just when nothing below them has gone. */
    method Prune() returns (ghost m: map<NodeRef, NodeRef>)
      requires Valid() && Acyclic(po.fwd) && forall e :: e in exits ==> po.fwd[e] == {}
      modifies this, po
      ensures forall x :: x in m <==> x in old(po.fwd) && ReachesExit(old(po.fwd), old(exits), x)
      ensures Increasing(m) && Renaming(m, |nodes|)
      ensures Indexed(po.fwd, po.rev, |nodes|) && Renamed(old(po.fwd), m, po.fwd)
      ensures forall x :: x in m ==> nodes[m[x]] == old(nodes)[x]
      ensures entry == old(entry) && exits == old(exits)
      ensures forall x :: x in m ==> (m[x] == x <==> forall y: nat :: y < x ==> y in m)
    {
      hide Acyclic, ReachesExit, Renaming, Renamed, Increasing, Hit, Closed, Converse;
      ghost var fwd := po.fwd;
      var deleted := DeleteDeadEnds();
      var names, count := NewNames(|nodes|, deleted);
      nodes := Compact(nodes, names, count, deleted);
      RestrictClosed(fwd, deleted);
      po := Rename(po.fwd, names, count);
      m := names;
      RestrictRenamed(fwd, deleted, m, po.fwd);
    }

    /** List the nodes, successors first, always taking the least of those that wait for fewest. */
    method ComputePostorder() returns (order: seq<NodeRef>)
      requires Valid() && Acyclic(po.fwd)
      ensures SuccessorsFirst(po.fwd, order) && |order| == |nodes| && forall x: nat :: x in order <==> x < |nodes|
      ensures LeastFirst(po.fwd, order)
    {
      hide Acyclic, SuccessorsFirst, Counts, HeapOk, Waiting, LeastFirst;
      NoneListed(po.fwd);
      var n := |nodes|;
      var ref2n, heap := InitialCounts();
      order := [];
      EmptyOrder(po.fwd);
      while heap != {}
        invariant SuccessorsFirst(po.fwd, order) && |order| <= n && (forall x :: x in order ==> x < n)
        invariant LeastFirst(po.fwd, order)
        invariant |ref2n| == n && Counts(po.fwd, order, n, ref2n) && HeapOk(order, ref2n, heap)
        decreases n - |order|
      {
        var p := First(heap);
        FirstIsReady(po.fwd, order, n, ref2n, heap, p);
        var ref := p.1;
        assert p.0 == 0;
        assert ref2n[ref] == 0;
        ReadyToList(po.fwd, order, ref);
        FirstIsLeast(po.fwd, order, n, ref2n, heap, p);
        ref2n, heap := TakeFirst(order, ref2n, heap, p);
        order := order + [ref];
        OrderBound(po.fwd, order, n);
      }
      AllListed(order, ref2n, n);
      OrderLength(po.fwd, order, n);
    }

    /** Renumber the nodes so that every edge goes from a smaller to a larger name. */
    method Sort() returns (ghost m: map<NodeRef, NodeRef>, ghost post: seq<NodeRef>)
      requires Valid() && Acyclic(po.fwd)
      modifies this
      ensures Valid() && |nodes| == |old(nodes)| && m.Keys == old(po.fwd.Keys) && old(exits) <= m.Keys
      ensures Renaming(m, |nodes|) && Renamed(old(po.fwd), m, po.fwd)
      ensures Ascending(po.fwd)
      ensures forall x :: x in m ==> nodes[m[x]] == old(nodes)[x]
      ensures entry == m[old(entry)] && exits == NewExits(m, old(exits))
      ensures SuccessorsFirst(old(po.fwd), post) && LeastFirst(old(po.fwd), post) && Places(Reversed(post), m)
    {
      hide Acyclic, Renaming, Renamed, Rises, Places, Indexed, Closed, Ascending, NewExits, LeastFirst, SuccessorsFirst;
      IndexedFacts(po.fwd, po.rev, |nodes|);
      var order, names;
      order, names, post := SortedNames();
      m := names;
      RenamingBelow(names, |nodes|);
      assert entry in names && exits <= names.Keys;
      var newpo := Rename(po.fwd, names, |nodes|);
      EdgesRise(po.fwd, names, newpo.fwd);
      var newnodes := Permute(nodes, order, names);
      po, nodes, entry, exits := newpo, newnodes, names[entry], NewExits(names, exits);
    }

    method SortedNames() returns (order: seq<NodeRef>, names: map<NodeRef, NodeRef>, ghost listed: seq<NodeRef>)
      requires Valid() && Acyclic(po.fwd)
      ensures names.Keys == po.fwd.Keys && Renaming(names, |nodes|) && Rises(po.fwd, names)
      ensures (forall x: nat :: x in names <==> x < |nodes|)
      ensures |order| == |nodes| && Places(order, names) && forall x :: x in order ==> x < |nodes|
      ensures SuccessorsFirst(po.fwd, listed) && LeastFirst(po.fwd, listed) && order == Reversed(listed)
    {
      hide Acyclic, Renaming, LeastFirst;
      var post := ComputePostorder();
      listed := post;
      order := Reversed(post);
      ReversedTwice(post);
      names := Positions(order);
      PositionsRename(order, names);
      PositionsRise(po.fwd, post, order, names);
    }

    method InitialCounts() returns (ref2n: seq<nat>, heap: set<(nat, NodeRef)>)
      requires Valid()
      ensures |ref2n| == |nodes| && Counts(po.fwd, [], |nodes|, ref2n) && HeapOk([], ref2n, heap)
    {
      ref2n, heap := [], {};
      for ref := 0 to |nodes|
        invariant |ref2n| == ref && (forall r: nat :: r < ref ==> ref2n[r] == |po.fwd[r]|)
        invariant forall p :: p in heap <==> p.1 < ref && p.0 == |po.fwd[p.1]|
      {
        var k := |po.fwd[ref]|;
        ref2n := ref2n + [k];
        heap := heap + {(k, ref)};
      }
      forall r: nat | r < |nodes|
        ensures Waiting(po.fwd, [], r) == po.fwd[r]
      {
      }
    }

    /** Take the first pair off the heap and one from each predecessor's count. */
    method TakeFirst(order: seq<NodeRef>, ref2n: seq<nat>, heap: set<(nat, NodeRef)>, p: (nat, NodeRef))
      returns (ref2n': seq<nat>, heap': set<(nat, NodeRef)>)
      requires Valid() && Acyclic(po.fwd) && SuccessorsFirst(po.fwd, order)
      requires Counts(po.fwd, order, |nodes|, ref2n) && HeapOk(order, ref2n, heap) && p in heap
      ensures |ref2n'| == |nodes| && Counts(po.fwd, order + [p.1], |nodes|, ref2n')
      ensures HeapOk(order + [p.1], ref2n', heap')
    {
      hide Acyclic, SuccessorsFirst, Waiting;
      var ref := p.1;
      var todo := po.rev[ref];
      ref2n', heap' := ref2n, heap - {p};
      UnlistedPreds(po.fwd, po.rev, order, ref);
      while todo != {}
        invariant todo <= po.rev[ref] && |ref2n'| == |ref2n|
        invariant forall r: nat :: r < |ref2n| && r !in order ==>
                    ref2n'[r] == |Waiting(po.fwd, order, r)| - if r in po.rev[ref] && r !in todo then 1 else 0
        invariant HeapOk(order + [ref], ref2n', heap')
      {
        var pred :| pred in todo;
        WaitingShrinks(po.fwd, po.rev, order, ref, pred);
        var k := ref2n'[pred];
        assert k > 0;
        heap' := heap' - {(k, pred)} + {(k - 1, pred)};
        ref2n' := ref2n'[pred := k - 1];
        todo := todo - {pred};
      }
      forall r: nat | r < |ref2n| && r !in order + [ref]
        ensures ref2n'[r] == |Waiting(po.fwd, order + [ref], r)|
      {
        WaitingShrinks(po.fwd, po.rev, order, ref, r);
      }
    }
  }

  /** Each listed node's position. */
  method Positions(order: seq<NodeRef>) returns (m: map<NodeRef, NodeRef>)
    requires forall i, j :: 0 <= i < j < |order| ==> order[i] != order[j]
    ensures Places(order, m)
  {
    m := map[];
    for i := 0 to |order|
      invariant forall x :: x in m <==> x in order[..i]
      invariant forall x :: x in m ==> m[x] < i && order[m[x]] == x
      invariant forall k :: 0 <= k < i ==> order[k] in m && m[order[k]] == k
    {
      m := m[order[i] := i];
    }
    assert order[..|order|] == order;
  }

  function NewExits(names: map<NodeRef, NodeRef>, exits: set<NodeRef>): (r: set<NodeRef>)
    requires exits <= names.Keys
    ensures forall i :: i in r <==> exists x :: x in exits && names[x] == i
  {
    set x | x in exits :: names[x]
  }

  ghost predicate Places(order: seq<NodeRef>, m: map<NodeRef, NodeRef>) {
    && (forall x :: x in m <==> x in order)
    && (forall x :: x in m ==> m[x] < |order| && order[m[x]] == x)
    && (forall i :: 0 <= i < |order| ==> order[i] in m && m[order[i]] == i)
  }

  /** Every edge goes from a smaller to a larger name. */
  ghost predicate Ascending(fwd: Rows) {
    forall i, j :: Edge(fwd, i, j) ==> i < j
  }

  ghost predicate Rises(fwd: Rows, m: map<NodeRef, NodeRef>) {
    forall x, y :: Edge(fwd, x, y) && x in m && y in m ==> m[x] < m[y]
  }

  /** The nodes in their new order. */
  method Permute<N>(nodes: seq<N>, order: seq<NodeRef>, ghost m: map<NodeRef, NodeRef>) returns (nodes': seq<N>)
    requires Places(order, m) && forall x :: x in order ==> x < |nodes|
    ensures |nodes'| == |order| && forall x :: x in m ==> nodes'[m[x]] == nodes[x]
  {
    nodes' := [];
    for i := 0 to |order|
      invariant |nodes'| == i && forall k :: 0 <= k < i ==> order[k] < |nodes| && nodes'[k] == nodes[order[k]]
    {
      assert order[i] in order;
      nodes' := nodes' + [nodes[order[i]]];
    }
  }

  lemma PositionsRename(order: seq<NodeRef>, m: map<NodeRef, NodeRef>)
    requires Places(order, m)
    ensures Renaming(m, |order|)
  {
    forall i: nat | i < |order|
      ensures Hit(m, i)
    {
      assert m[order[i]] == i;
    }
  }

  lemma PositionsRise(fwd: Rows, post: seq<NodeRef>, order: seq<NodeRef>, m: map<NodeRef, NodeRef>)
    requires SuccessorsFirst(fwd, post) && order == Reversed(post) && Places(order, m)
    ensures Rises(fwd, m)
  {
    forall x, y | Edge(fwd, x, y) && x in m && y in m
      ensures m[x] < m[y]
    {
      var n := |post|;
      assert post[n - 1 - m[x]] == x;
      assert y in post[..n - 1 - m[x]];
      var k :| 0 <= k < n - 1 - m[x] && post[k] == y;
      assert order[n - 1 - k] == y;
    }
  }

  lemma EdgesRise(fwd: Rows, m: map<NodeRef, NodeRef>, fwd': Rows)
    requires Rises(fwd, m) && Renamed(fwd, m, fwd')
    ensures Ascending(fwd')
  {
    forall i, j | Edge(fwd', i, j)
      ensures i < j
    {
      var x :| x in m && m[x] == i;
      var y :| y in m && m[y] == j;
      assert Edge(fwd, x, y);
    }
  }

  lemma UnlistedPreds(fwd: Rows, rev: Rows, order: seq<NodeRef>, ref: NodeRef)
    requires Converse(fwd, rev) && Closed(fwd) && Acyclic(fwd) && SuccessorsFirst(fwd, order) && ref in rev
    requires ref !in order
    ensures forall q :: q in rev[ref] ==> q in fwd && q !in order && q != ref
  {
    forall q | q in rev[ref]
      ensures q in fwd && q !in order && q != ref
    {
      assert Edge(rev, ref, q);
      assert Edge(fwd, q, ref);
      NoLoop(fwd, q, ref);
      assert forall i :: 0 <= i < |order| && order[i] == q ==> ref in order[..i];
    }
  }

  lemma ReadyToList(fwd: Rows, order: seq<NodeRef>, ref: NodeRef)
    requires SuccessorsFirst(fwd, order) && ref !in order && ref in fwd && Waiting(fwd, order, ref) == {}
    ensures SuccessorsFirst(fwd, order + [ref])
  {
    forall b | b in fwd[ref]
      ensures b in order
    {
      assert b !in Waiting(fwd, order, ref);
    }
    AppendPostorder(fwd, order, ref);
  }

  lemma EmptyOrder(fwd: Rows)
    ensures SuccessorsFirst(fwd, [])
  {
  }

  function UpTo(n: nat): (s: set<NodeRef>)
    ensures (forall x: nat :: x in s <==> x < n) && |s| == n
  {
    if n == 0 then {} else UpTo(n - 1) + {n - 1}
  }

  lemma {:induction false} DistinctLength(order: seq<NodeRef>)
    requires forall i, j :: 0 <= i < j < |order| ==> order[i] != order[j]
    ensures |order| == |Elements(order)|
    decreases |order|
  {
    if order != [] {
      var init := order[..|order| - 1];
      DistinctLength(init);
      assert order[|order| - 1] !in init;
      assert Elements(order) == Elements(init) + {order[|order| - 1]};
    }
  }

  lemma OrderBound(fwd: Rows, order: seq<NodeRef>, n: nat)
    requires SuccessorsFirst(fwd, order) && forall x :: x in order ==> x < n
    ensures |order| <= n
  {
    DistinctLength(order);
    SubsetCard(Elements(order), UpTo(n));
  }

  lemma OrderLength(fwd: Rows, order: seq<NodeRef>, n: nat)
    requires SuccessorsFirst(fwd, order) && forall x: nat :: x in order <==> x < n
    ensures |order| == n
  {
    DistinctLength(order);
    assert Elements(order) == UpTo(n);
  }

  lemma AllListed(order: seq<NodeRef>, ref2n: seq<nat>, n: nat)
    requires HeapOk(order, ref2n, {}) && |ref2n| == n
    ensures forall x: nat :: x < n ==> x in order
  {
    forall x: nat | x < n
      ensures x in order
    {
      var p: (nat, NodeRef) := (ref2n[x], x);
      assert p !in {};
    }
  }

  lemma IndexedFacts(fwd: Rows, rev: Rows, n: nat)
    requires Indexed(fwd, rev, n)
    ensures Mirrored(fwd, rev) && fwd.Keys == rev.Keys && Closed(fwd)
  {
  }

  lemma PruneStart(fwd: Rows, exits: set<NodeRef>, todo: set<NodeRef>)
    requires todo == set i | i in fwd && i !in exits
    ensures Pruning(fwd, exits, {}, todo)
  {
  }

  lemma PruneLive(fwd: Rows, rev: Rows, exits: set<NodeRef>, deleted: set<NodeRef>, todo: set<NodeRef>, ref: NodeRef)
    requires Pruning(fwd, exits, deleted, todo) && ref in todo && fwd.Keys == rev.Keys
    ensures ref in fwd && ref !in deleted && ref in Restrict(fwd, deleted) && ref in Restrict(rev, deleted)
  {
  }

  lemma PruneBound(fwd: Rows, exits: set<NodeRef>, deleted: set<NodeRef>, todo: set<NodeRef>)
    requires Pruning(fwd, exits, deleted, todo)
    ensures deleted <= fwd.Keys
  {
  }

  lemma RestrictClosed(fwd: Rows, deleted: set<NodeRef>)
    requires Closed(fwd)
    ensures Closed(Restrict(fwd, deleted))
  {
    forall a, b | Edge(Restrict(fwd, deleted), a, b)
      ensures b in Restrict(fwd, deleted)
    {
      assert Edge(fwd, a, b);
    }
  }

  lemma RestrictRenamed(fwd: Rows, deleted: set<NodeRef>, m: map<NodeRef, NodeRef>, fwd': Rows)
    requires Renamed(Restrict(fwd, deleted), m, fwd') && m.Keys == Restrict(fwd, deleted).Keys
    ensures Renamed(fwd, m, fwd')
  {
    forall x, y | x in m && y in m
      ensures Edge(fwd, x, y) <==> Edge(Restrict(fwd, deleted), x, y)
    {
    }
  }
}
