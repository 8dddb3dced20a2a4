/** A binary relation kept as two mirrored adjacency maps. */
module Binrel {
  import opened Digraph

  function Row<T>(m: map<T, set<T>>, a: T): set<T> {
    if a in m then m[a] else {}
  }

  ghost predicate Mirrored<T(!new)>(fwd: map<T, set<T>>, rev: map<T, set<T>>) {
    forall a, b :: Edge(fwd, a, b) <==> Edge(rev, b, a)
  }

  /** `m` without `node`. */
  ghost function Without<T>(m: map<T, set<T>>, node: T): map<T, set<T>> {
    map a | a in m && a != node :: m[a] - {node}
  }

  /** `order` holds no node twice, and every node's successors before the node. */
  ghost predicate SuccessorsFirst<T(!new)>(g: map<T, set<T>>, order: seq<T>) {
    && (forall i, j :: 0 <= i < j < |order| ==> order[i] != order[j])
    && (forall i, b :: 0 <= i < |order| && Edge(g, order[i], b) ==> b in order[..i])
  }

  lemma AppendPostorder<T(!new)>(g: map<T, set<T>>, order: seq<T>, val: T)
    requires SuccessorsFirst(g, order) && val !in order && val in g && forall b :: b in g[val] ==> b in order
    ensures SuccessorsFirst(g, order + [val])
  {
    var order' := order + [val];
    forall i, b | 0 <= i < |order'| && Edge(g, order'[i], b)
      ensures b in order'[..i]
    {
      assert order'[..i] == order[..i];
      if i == |order| {
        assert order[..i] == order;
      }
    }
  }

  ghost function Unlinked<T>(m: map<T, set<T>>, others: set<T>, node: T): map<T, set<T>> {
    map a | a in m :: if a in others then m[a] - {node} else m[a]
  }

  /** Take `node` out of the rows of `others`. */
  method Unlink<T>(m: map<T, set<T>>, others: set<T>, node: T) returns (m': map<T, set<T>>)
    requires others <= m.Keys
    ensures m' == Unlinked(m, others, node)
  {
    m' := m;
    var todo := others;
    while todo != {}
      invariant todo <= others && m' == Unlinked(m, others - todo, node)
    {
      var other :| other in todo;
      m' := m'[other := m'[other] - {node}];
      todo := todo - {other};
    }
    assert others - todo == others;
  }

  /** Unlinking a node on both sides leaves the relation without it. */
  lemma UnlinkIsWithout<T(!new)>(fwd: map<T, set<T>>, rev: map<T, set<T>>, node: T)
    requires Mirrored(fwd, rev) && node in fwd && node in rev
    ensures fwd[node] <= rev.Keys && Unlinked(rev, fwd[node], node) - {node} == Without(rev, node)
    ensures var froms := Unlinked(rev, fwd[node], node)[node];
            froms <= fwd.Keys - {node} && Unlinked(fwd - {node}, froms, node) == Without(fwd, node)
    ensures Mirrored(Without(fwd, node), Without(rev, node))
  {
    assert forall a :: a in fwd && node in fwd[a] ==> Edge(fwd, a, node) && Edge(rev, node, a);
    assert forall b :: b in rev && node in rev[b] ==> Edge(rev, b, node) && Edge(fwd, node, b);
    assert forall b :: b in fwd[node] ==> Edge(fwd, node, b) && Edge(rev, b, node);
    assert forall b :: b in rev[node] ==> Edge(rev, node, b) && Edge(fwd, b, node);
    UnlinkedAll(rev, fwd[node], node);
    var froms := Unlinked(rev, fwd[node], node)[node];
    assert forall a :: a in fwd - {node} && node in fwd[a] ==> a in froms;
    UnlinkedAll(fwd - {node}, froms, node);
    assert Without(fwd, node) == Without(fwd - {node}, node);
    WithoutEdges(fwd, node);
    WithoutEdges(rev, node);
  }

  lemma UnlinkedAll<T>(m: map<T, set<T>>, others: set<T>, node: T)
    requires forall a :: a in m && node in m[a] ==> a in others
    ensures Unlinked(m, others, node) - {node} == Without(m, node)
    ensures node !in m ==> Unlinked(m, others, node) == Without(m, node)
  {
    forall a | a in m
      ensures Unlinked(m, others, node)[a] == m[a] - {node}
    {
      assert a !in others ==> m[a] - {node} == m[a];
    }
  }

  lemma WithoutEdges<T(!new)>(m: map<T, set<T>>, node: T)
    ensures forall a, b :: Edge(Without(m, node), a, b) <==> Edge(m, a, b) && a != node && b != node
  {
  }

  class Relation<T(==, !new)> {
    var fwd: map<T, set<T>>
    var rev: map<T, set<T>>

    ghost predicate Valid()
      reads this
    {
      Mirrored(fwd, rev)
    }

    constructor ()
      ensures Valid() && fwd == map[] && rev == map[]
    {
      fwd, rev := map[], map[];
    }

    method Insert(src: T, dst: T)
      requires Valid()
      modifies this
      ensures Valid()
      ensures forall a, b :: Edge(fwd, a, b) <==> old(Edge(fwd, a, b)) || (a == src && b == dst)
      ensures fwd.Keys == old(fwd.Keys) + {src} && rev.Keys == old(rev.Keys) + {dst}
    {
      fwd := fwd[src := Row(fwd, src) + {dst}];
      rev := rev[dst := Row(rev, dst) + {src}];
      assert forall a, b :: Edge(rev, b, a) <==> old(Edge(rev, b, a)) || (a == src && b == dst);
    }

    method AddNode(node: T)
      requires Valid()
      modifies this
      ensures Valid()
      ensures forall a, b :: Edge(fwd, a, b) <==> old(Edge(fwd, a, b))
      ensures fwd.Keys == old(fwd.Keys) + {node} && rev.Keys == old(rev.Keys) + {node}
    {
      fwd := fwd[node := Row(fwd, node)];
      rev := rev[node := Row(rev, node)];
      assert forall a, b :: Edge(rev, b, a) <==> old(Edge(rev, b, a));
    }

    /** Remove a node and all edges at it. */
    method EraseNode(node: T)
      requires Valid() && node in fwd && node in rev
      modifies this
      ensures Valid() && fwd == Without(old(fwd), node) && rev == Without(old(rev), node)
    {
      UnlinkIsWithout(fwd, rev, node);
      rev := Unlink(rev, fwd[node], node);
      fwd := fwd - {node};
      fwd := Unlink(fwd, rev[node], node);
      rev := rev - {node};
    }

    /** Depth-first postorder from `val`, skipping what is done. */
    method PostorderRec(done: set<T>, order: seq<T>, val: T) returns (done': set<T>, order': seq<T>, ok: bool)
      requires Closed(fwd) && Acyclic(fwd) && val in fwd
      requires SuccessorsFirst(fwd, order) && done == set x | x in order
      ensures ok && SuccessorsFirst(fwd, order') && done' == set x | x in order'
      ensures order <= order' && val in order'
      ensures forall x :: x in order' && x !in order ==> Reach(fwd, val, x)
      decreases |Descendants(fwd, val)|
    {
      hide SuccessorsFirst;
      done', order', ok := done, order, true;
      ReachRefl(fwd, val);
      if val in done {
        return;
      }
      var succs := fwd[val];
      while succs != {}
        invariant succs <= fwd[val] && ok && order <= order' && done' == set x | x in order'
        invariant SuccessorsFirst(fwd, order') && val !in order'
        invariant forall b :: b in fwd[val] ==> b in succs || b in order'
        invariant forall x :: x in order' && x !in order ==> Reach(fwd, val, x)
      {
        var succ :| succ in succs;
        assert Edge(fwd, val, succ);
        DescendantsShrink(fwd, val, succ);
        ghost var before := order';
        done', order', ok := PostorderRec(done', order', succ);
        BelowVal(val, succ, before, order');
        succs := succs - {succ};
      }
      AppendPostorder(fwd, order', val);
      done' := done' + {val};
      order' := order' + [val];
    }

    lemma BelowVal(val: T, succ: T, before: seq<T>, after: seq<T>)
      requires Acyclic(fwd) && Edge(fwd, val, succ) && val !in before
      requires forall x :: x in after && x !in before ==> Reach(fwd, succ, x)
      ensures val !in after && forall x :: x in after && x !in before ==> Reach(fwd, val, x)
    {
      ReachEdge(fwd, val, succ);
      forall x | x in after && x !in before
        ensures x != val && Reach(fwd, val, x)
      {
        ReachTrans(fwd, val, succ, x);
        if x == val {
          ReachPlusTrans(fwd, val, succ, val);
          assert false;
        }
      }
    }

    /** Lists exactly what is reachable from `entry`, once each, successors first. */
    method Postorder(entry: T) returns (order: seq<T>)
      requires Closed(fwd) && Acyclic(fwd) && entry in fwd
      ensures SuccessorsFirst(fwd, order) && forall x :: x in order <==> Reach(fwd, entry, x)
    {
      var done, ok;
      done, order, ok := PostorderRec({}, [], entry);
      forall x | Reach(fwd, entry, x)
        ensures x in order
      {
        ListedOnward(order, entry, x);
      }
    }

    lemma ListedOnward(order: seq<T>, a: T, x: T)
      requires SuccessorsFirst(fwd, order) && a in order && Reach(fwd, a, x)
      ensures x in order
    {
      if x !in order {
        var u, v := Crossing(fwd, (iset y | y in order), a, x);
        assert false;
      }
    }

    method ReversePostorder(entry: T) returns (order: seq<T>)
      requires Closed(fwd) && Acyclic(fwd) && entry in fwd
      ensures SuccessorsFirst(fwd, Reversed(order)) && forall x :: x in order <==> Reach(fwd, entry, x)
    {
      var post := Postorder(entry);
      order := Reversed(post);
      ReversedTwice(post);
    }
  }

  lemma ReversedTwice<T>(s: seq<T>)
    ensures Reversed(Reversed(s)) == s && forall x :: x in s <==> x in Reversed(s)
  {
    var r := Reversed(s);
    forall x | x in s
      ensures x in r
    {
      var i :| 0 <= i < |s| && s[i] == x;
      assert r[|s| - 1 - i] == x;
    }
  }
}
