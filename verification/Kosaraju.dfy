/** Kosaraju's algorithm: two recursive sweeps whose order makes every strongly
    connected component appear under one root. */
module Kosaraju {
  import opened Digraph

  function Targets<T>(g: map<T, set<T>>, a: T): set<T> {
    if a in g then g[a] else {}
  }

  function Mentioned<T>(g: map<T, set<T>>): set<T> {
    g.Keys + set a, b | a in g && b in g[a] :: b
  }

  function Gray<T>(visited: set<T>, l: seq<T>): set<T> {
    visited - Elements(l)
  }

  // ---------------------------------------------------------------- the first sweep

  ghost predicate GrayMate<T(!new)>(g: map<T, set<T>>, gray: set<T>, u: T) {
    exists w :: w in gray && Mutual(g, u, w)
  }

  ghost predicate LaterMate<T(!new)>(g: map<T, set<T>>, done: seq<T>, u: T) {
    exists w :: w !in done && Mutual(g, u, w)
  }

  /** Whatever reaches the `i`-th finished node is strongly connected to it or to a node that
      finished later or not at all. */
  ghost predicate FinishOrder<T(!new)>(g: map<T, set<T>>, l: seq<T>) {
    forall i, u {:trigger l[i], Reach(g, u, l[i])} ::
      0 <= i < |l| && Reach(g, u, l[i]) && !Reach(g, l[i], u) ==> LaterMate(g, l[..i + 1], u)
  }

  ghost predicate Swept<T(!new)>(g: map<T, set<T>>, visited: set<T>, l: seq<T>) {
    && Elements(l) <= visited
    && (forall i, j :: 0 <= i < j < |l| ==> l[i] != l[j])
    && (forall a, b :: a in l && Edge(g, a, b) ==> b in visited)
    && (forall u, x :: u in l && x in Gray(visited, l) && Reach(g, u, x) ==> GrayMate(g, Gray(visited, l), u))
    && FinishOrder(g, l)
  }

  ghost predicate AllReach<T(!new)>(g: map<T, set<T>>, s: set<T>, n: T) {
    forall x :: x in s ==> Reach(g, x, n)
  }

  lemma StartNode<T(!new)>(g: map<T, set<T>>, visited: set<T>, l: seq<T>, n: T)
    requires Swept(g, visited, l) && n !in visited
    ensures Swept(g, visited + {n}, l) && Gray(visited + {n}, l) == Gray(visited, l) + {n}
  {
    hide FinishOrder;
    var gray, gray' := Gray(visited, l), Gray(visited + {n}, l);
    assert gray' == gray + {n};
    forall u, x | u in l && x in gray' && Reach(g, u, x)
      ensures GrayMate(g, gray', u)
    {
      if x == n {
        FirstGray(g, visited, l, u, n);
      }
      var w :| w in gray && Mutual(g, u, w);
    }
  }

  /** A path from a finished node to an unvisited one passes a gray node. */
  lemma FirstGray<T(!new)>(g: map<T, set<T>>, visited: set<T>, l: seq<T>, u: T, n: T)
    requires Swept(g, visited, l) && u in l && n !in visited && Reach(g, u, n)
    ensures GrayMate(g, Gray(visited, l), u)
  {
    hide FinishOrder;
    var a, b := Crossing(g, (iset x | x in l), u, n);
    ReachEdge(g, a, b);
    ReachTrans(g, u, a, b);
    assert b in Gray(visited, l);
  }

  lemma FinishNode<T(!new)>(g: map<T, set<T>>, visited: set<T>, l: seq<T>, n: T)
    requires Swept(g, visited, l) && n in Gray(visited, l) && AllReach(g, Gray(visited, l), n)
    requires Targets(g, n) <= visited
    ensures Swept(g, visited, l + [n]) && Gray(visited, l + [n]) == Gray(visited, l) - {n}
  {
    hide FinishOrder;
    var l', gray, gray' := l + [n], Gray(visited, l), Gray(visited, l + [n]);
    assert gray' == gray - {n};
    forall u, x | u in l' && x in gray' && Reach(g, u, x)
      ensures GrayMate(g, gray', u)
    {
      assert Reach(g, x, n);
      if u == n {
        assert Mutual(g, u, x);
      } else {
        var w :| w in gray && Mutual(g, u, w);
        if w == n {
          ReachTrans(g, x, n, u);
          assert Mutual(g, u, x);
        }
      }
    }
    FinishLast(g, visited, l, n);
  }

  lemma FinishLast<T(!new)>(g: map<T, set<T>>, visited: set<T>, l: seq<T>, n: T)
    requires Swept(g, visited, l) && n in Gray(visited, l)
    ensures FinishOrder(g, l + [n])
  {
    var l' := l + [n];
    forall i, u | 0 <= i < |l'| && Reach(g, u, l'[i]) && !Reach(g, l'[i], u)
      ensures LaterMate(g, l'[..i + 1], u)
    {
      if i < |l| {
        assert l'[..i + 1] == l[..i + 1];
        assert l[i] == l'[i];
      } else {
        assert l'[..i + 1] == l';
        if u in l {
          var w :| w in Gray(visited, l) && Mutual(g, u, w);
          assert w !in l';
        } else {
          ReachRefl(g, u);
          ReachRefl(g, n);
          assert u !in l' && Mutual(g, u, u);
        }
      }
    }
  }

  // ---------------------------------------------------------------- the second sweep

  ghost predicate PredsIn<T(!new)>(g: map<T, set<T>>, s: set<T>, inside: set<T>) {
    forall a, b :: Edge(g, a, b) && b in s ==> a in inside
  }

  ghost predicate WholeComponents<T(!new)>(g: map<T, set<T>>, s: set<T>) {
    forall a, b :: a in s && Mutual(g, a, b) ==> b in s
  }

  /** The assignment so far tells components apart. */
  ghost predicate Separates<T(!new)>(g: map<T, set<T>>, roots: map<T, T>) {
    forall a, b :: a in roots && b in roots ==> (roots[a] == roots[b] <==> Mutual(g, a, b))
  }

  /** Everything strongly connected to the root is assigned with it. */
  lemma RootTakesAll<T(!new)>(g: map<T, set<T>>, before: set<T>, after: set<T>, r: T, x: T)
    requires WholeComponents(g, before) && before <= after && r !in before && r in after
    requires PredsIn(g, after - before, after)
    requires Mutual(g, x, r)
    ensures x in after - before
  {
    ReachRefl(g, r);
    if x in before {
      assert false;
    }
    if x !in after {
      var u, v := Crossing(g, (iset y | y !in after), x, r);
      ReachEdge(g, u, v);
      if v in before {
        ReachTrans(g, r, x, u);
        ReachTrans(g, r, u, v);
        assert Mutual(g, v, r);
        assert false;
      }
      assert false;
    }
  }

  /** Nothing else is, if every node that reaches the root has been visited. */
  lemma RootTakesOnly<T(!new)>(g: map<T, set<T>>, l: seq<T>, i: nat, before: set<T>, x: T)
    requires FinishOrder(g, l) && i < |l| && WholeComponents(g, before) && Elements(l[i + 1..]) <= before
    requires (forall y :: Reach(g, y, l[i]) ==> y in l)
    requires Reach(g, x, l[i]) && x !in before
    ensures Mutual(g, x, l[i])
  {
    if !Reach(g, l[i], x) {
      assert LaterMate(g, l[..i + 1], x);
      var w :| w !in l[..i + 1] && Mutual(g, x, w);
      ReachTrans(g, w, x, l[i]);
      LaterPart(l, i, w);
    }
  }

  lemma LaterPart<T>(l: seq<T>, i: nat, w: T)
    requires i < |l|
    ensures w in l && w !in l[..i + 1] ==> w in Elements(l[i + 1..])
  {
    assert l == l[..i + 1] + l[i + 1..];
  }

  /** One root's sweep extends a correct assignment. */
  lemma RootSeparates<T(!new)>(g: map<T, set<T>>, l: seq<T>, i: nat, before: map<T, T>, after: map<T, T>)
    requires i < |l| && FinishOrder(g, l) && Elements(l[i + 1..]) <= before.Keys && l[i] !in before
    requires forall y :: Reach(g, y, l[i]) ==> y in l
    requires WholeComponents(g, before.Keys) && Separates(g, before) && RootsIn(before)
    requires before.Keys <= after.Keys && l[i] in after && PredsIn(g, after.Keys - before.Keys, after.Keys)
    requires forall x :: x in before ==> after[x] == before[x]
    requires forall x :: x in after && x !in before ==> after[x] == l[i] && Reach(g, x, l[i])
    ensures WholeComponents(g, after.Keys) && Separates(g, after)
  {
    var r := l[i];
    forall x | x in after && x !in before
      ensures Mutual(g, x, r)
    {
      RootTakesOnly(g, l, i, before.Keys, x);
    }
    forall a, b | a in after && Mutual(g, a, b)
      ensures b in after && (a in before <==> b in before)
    {
      if a !in before {
        MutualTrans(g, b, a, r);
        RootTakesAll(g, before.Keys, after.Keys, r, b);
      }
    }
    forall a, b | a in after && b in after
      ensures after[a] == after[b] <==> Mutual(g, a, b)
    {
      if a !in before && b !in before {
        MutualTrans(g, a, r, b);
      }
    }
  }

  lemma MutualTrans<T(!new)>(g: map<T, set<T>>, a: T, b: T, c: T)
    requires Mutual(g, a, b) && Mutual(g, b, c)
    ensures Mutual(g, a, c) && Mutual(g, c, a)
  {
    ReachTrans(g, a, b, c);
    ReachTrans(g, c, b, a);
  }

  /** Roots are assigned to themselves. */
  ghost predicate RootsIn<T>(roots: map<T, T>) {
    forall x :: x in roots ==> roots[x] in roots && roots[roots[x]] == roots[x]
  }

  // ---------------------------------------------------------------- when it is correct

  ghost predicate ReachableFrom<T(!new)>(g: map<T, set<T>>, nodes: set<T>, x: T) {
    exists n :: n in nodes && Reach(g, n, x)
  }

  /** Whatever leads to a node reachable from `nodes` is itself reachable from `nodes`. */
  ghost predicate SealedOff<T(!new)>(g: map<T, set<T>>, nodes: set<T>) {
    forall a, b :: Edge(g, a, b) && ReachableFrom(g, nodes, b) ==> ReachableFrom(g, nodes, a)
  }

  lemma SealedReach<T(!new)>(g: map<T, set<T>>, nodes: set<T>, a: T, b: T)
    requires SealedOff(g, nodes) && Reach(g, a, b) && ReachableFrom(g, nodes, b)
    ensures ReachableFrom(g, nodes, a)
  {
    if !ReachableFrom(g, nodes, a) {
      var u, v := Crossing(g, (iset x | !ReachableFrom(g, nodes, x)), a, b);
      assert false;
    }
  }

  lemma ReachableStep<T(!new)>(g: map<T, set<T>>, nodes: set<T>, a: T, b: T)
    requires ReachableFrom(g, nodes, a) && Reach(g, a, b)
    ensures ReachableFrom(g, nodes, b)
  {
    var n :| n in nodes && Reach(g, n, a);
    ReachTrans(g, n, a, b);
  }

  class Kosaraju<T(==, !new)> {
    const nodes: set<T>
    const edges: map<T, set<T>>
    var redges: map<T, set<T>>
    var order: seq<T>
    var visited: set<T>
    var roots: map<T, T>
    var components: map<T, set<T>>

    /** Nothing has run yet, and `redges` holds the reversed edges. */
    ghost predicate Ready()
      reads this
    {
      Reversal() && order == [] && visited == {} && roots == map[] && components == map[]
    }

    ghost predicate Reversal()
      reads this`redges
    {
      forall a, b :: Edge(redges, b, a) <==> Edge(edges, a, b)
    }

    constructor OfNodes(nodes: set<T>, edges: map<T, set<T>>)
      ensures Ready() && this.nodes == nodes && this.edges == edges
    {
      this.nodes, this.edges := nodes, edges;
      order, visited, roots, components, redges := [], {}, map[], map[], map[];
      new;
      Reverse();
    }

    constructor (edges: map<T, set<T>>)
      ensures Ready() && this.nodes == Mentioned(edges) && this.edges == edges
    {
      this.nodes, this.edges := Mentioned(edges), edges;
      order, visited, roots, components, redges := [], {}, map[], map[], map[];
      new;
      Reverse();
    }

    method Reverse()
      requires redges == map[]
      modifies this`redges
      ensures Reversal()
    {
      var srcs := edges.Keys;
      while srcs != {}
        invariant srcs <= edges.Keys
        invariant forall a, b :: Edge(redges, b, a) <==> Edge(edges, a, b) && a !in srcs
      {
        var src :| src in srcs;
        var dsts := edges[src];
        ghost var was := redges;
        while dsts != {}
          invariant dsts <= edges[src]
          invariant forall a, b :: Edge(redges, b, a) <==>
                    Edge(was, b, a) || (a == src && b in edges[src] && b !in dsts)
        {
          var dst :| dst in dsts;
          ghost var prev := redges;
          redges := redges[dst := Targets(redges, dst) + {src}];
          assert forall a, b :: Edge(redges, b, a) <==> Edge(prev, b, a) || (a == src && b == dst);
          dsts := dsts - {dst};
        }
        srcs := srcs - {src};
      }
    }

    method Visit(node: T, ghost universe: set<T>)
      requires Swept(edges, visited, order) && node in universe && Mentioned(edges) <= universe && visited <= universe
      requires AllReach(edges, Gray(visited, order), node)
      modifies this`visited, this`order
      ensures Swept(edges, visited, order) && Gray(visited, order) == old(Gray(visited, order))
      ensures old(visited) + {node} <= visited <= universe
      ensures forall x :: x in visited && x !in old(visited) ==> Reach(edges, node, x)
      decreases |universe - visited|
    {
      hide Swept;
      ReachRefl(edges, node);
      if node !in visited {
        StartNode(edges, visited, order, node);
        assert universe - visited == (universe - visited - {node}) + {node};
        visited := visited + {node};
        assert universe - visited == universe - old(visited) - {node};
        var succs := Targets(edges, node);
        while succs != {}
          invariant succs <= Targets(edges, node) <= succs + visited
          invariant Swept(edges, visited, order) && Gray(visited, order) == old(Gray(visited, order)) + {node}
          invariant old(visited) + {node} <= visited <= universe
          invariant |universe - visited| < |universe - old(visited)|
          invariant forall x :: x in visited && x !in old(visited) ==> Reach(edges, node, x)
        {
          var succ :| succ in succs;
          ghost var seen := visited;
          ReachEdge(edges, node, succ);
          GrayStep(edges, Gray(visited, order), node, succ);
          Visit(succ, universe);
          NewReach(edges, node, succ, seen, visited);
          SubsetCard(universe - visited, universe - seen);
          succs := succs - {succ};
        }
        FinishNode(edges, visited, order, node);
        order := order + [node];
      }
    }

    lemma GrayStep(g: map<T, set<T>>, gray: set<T>, n: T, s: T)
      requires AllReach(g, gray, n) && Reach(g, n, s)
      ensures AllReach(g, gray, s)
    {
      forall x | x in gray
        ensures Reach(g, x, s)
      {
        ReachTrans(g, x, n, s);
      }
    }

    lemma NewReach(g: map<T, set<T>>, n: T, s: T, seen: set<T>, visited: set<T>)
      requires Reach(g, n, s) && forall x :: x in visited && x !in seen ==> Reach(g, s, x)
      ensures forall x :: x in visited && x !in seen ==> Reach(g, n, x)
    {
      forall x | x in visited && x !in seen
        ensures Reach(g, n, x)
      {
        ReachTrans(g, n, s, x);
      }
    }

    /** Visiting each of `nodes` visits exactly what is reachable from them. */
    method VisitAll()
      requires visited == {} && order == []
      modifies this`visited, this`order
      ensures Swept(edges, visited, order) && Elements(order) == visited
      ensures forall x :: x in visited <==> ReachableFrom(edges, nodes, x)
    {
      var todo := nodes;
      ghost var universe := nodes + Mentioned(edges);
      while todo != {}
        invariant todo <= nodes <= todo + visited
        invariant visited <= universe && Swept(edges, visited, order) && Gray(visited, order) == {}
        invariant forall x :: x in visited ==> ReachableFrom(edges, nodes, x)
      {
        var node :| node in todo;
        Visit(node, universe);
        todo := todo - {node};
      }
      forall x | ReachableFrom(edges, nodes, x)
        ensures x in visited
      {
        StaysVisited(edges, nodes, visited, order, x);
      }
    }

    lemma StaysVisited(g: map<T, set<T>>, nodes: set<T>, visited: set<T>, l: seq<T>, x: T)
      requires Swept(g, visited, l) && Gray(visited, l) == {} && nodes <= visited && ReachableFrom(g, nodes, x)
      ensures x in visited
    {
      hide FinishOrder, Reach, Swept;
      NothingLeads(g, visited, l);
      var n :| n in nodes && Reach(g, n, x);
      if x !in visited {
        var u, v := Crossing(g, (iset y | y in visited), n, x);
        assert false;
      }
    }

    lemma NothingLeads(g: map<T, set<T>>, visited: set<T>, l: seq<T>)
      requires Swept(g, visited, l) && Gray(visited, l) == {}
      ensures forall a, b :: a in visited && Edge(g, a, b) ==> b in visited
    {
      hide FinishOrder, Reach;
      forall a | a in visited
        ensures a in l
      {
        assert a !in Gray(visited, l);
      }
    }

    /** Assign to `root` everything unassigned that leads to `node` through unassigned nodes. */
    method Assign(node: T, root: T, ghost universe: set<T>)
      requires Reversal() && node in universe && Mentioned(edges) <= universe && roots.Keys <= universe
      modifies this`roots
      ensures old(roots.Keys) + {node} <= roots.Keys <= universe
      ensures node in old(roots) ==> roots == old(roots)
      ensures forall x :: x in old(roots) ==> roots[x] == old(roots)[x]
      ensures forall x :: x in roots && x !in old(roots) ==> roots[x] == root && Reach(edges, x, node)
      ensures PredsIn(edges, roots.Keys - old(roots.Keys), roots.Keys)
      decreases |universe - roots.Keys|
    {
      ReachRefl(edges, node);
      if node !in roots {
        roots := roots[node := root];
        assert universe - roots.Keys == universe - old(roots.Keys) - {node};
        var preds := Targets(redges, node);
        while preds != {}
          invariant preds <= Targets(redges, node) <= preds + roots.Keys
          invariant old(roots.Keys) + {node} <= roots.Keys <= universe
          invariant |universe - roots.Keys| < |universe - old(roots.Keys)|
          invariant forall x :: x in old(roots) ==> roots[x] == old(roots)[x]
          invariant forall x :: x in roots && x !in old(roots) ==> roots[x] == root && Reach(edges, x, node)
          invariant PredsIn(edges, roots.Keys - old(roots.Keys) - {node}, roots.Keys)
        {
          var pred :| pred in preds;
          assert Edge(redges, node, pred);
          ReachEdge(edges, pred, node);
          ghost var before := roots;
          Assign(pred, root, universe);
          LeadsOn(edges, pred, node, before.Keys, roots.Keys);
          SubsetCard(universe - roots.Keys, universe - before.Keys);
          preds := preds - {pred};
        }
        assert forall a :: Edge(edges, a, node) ==> Edge(redges, node, a);
      }
    }

    lemma LeadsOn(g: map<T, set<T>>, p: T, n: T, before: set<T>, after: set<T>)
      requires Reach(g, p, n) && forall x :: x in after && x !in before ==> Reach(g, x, p)
      ensures forall x :: x in after && x !in before ==> Reach(g, x, n)
    {
      forall x | x in after && x !in before
        ensures Reach(g, x, n)
      {
        ReachTrans(g, x, p, n);
      }
    }

    /** What the second sweep keeps, whatever was visited. */
    ghost predicate Assigning(done: set<T>)
      reads this`roots
    {
      && done <= roots.Keys
      && PredsIn(edges, roots.Keys, roots.Keys)
      && RootsIn(roots)
      && (forall x :: x in roots ==> ReachableFrom(edges, nodes, roots[x]) && Reach(edges, x, roots[x]))
    }

    /** Assign the finished nodes in reverse order. */
    method AssignAll()
      requires Reversal() && roots == map[] && Swept(edges, visited, order) && Elements(order) == visited
      requires forall x :: x in visited <==> ReachableFrom(edges, nodes, x)
      modifies this`roots
      ensures Assigning(visited)
      ensures SealedOff(edges, nodes) ==> Separates(edges, roots) && roots.Keys == visited
    {
      var i := |order|;
      ghost var universe := visited + Mentioned(edges);
      while i > 0
        invariant 0 <= i <= |order| && roots.Keys <= universe
        invariant Assigning(Elements(order[i..]))
        invariant SealedOff(edges, nodes) ==> Separates(edges, roots) && WholeComponents(edges, roots.Keys)
      {
        i := i - 1;
        ghost var before := roots;
        Assign(order[i], order[i], universe);
        KeepAssigning(i, before);
      }
      assert order[0..] == order;
      if SealedOff(edges, nodes) {
        forall x | x in roots
          ensures x in visited
        {
          SealedReach(edges, nodes, x, roots[x]);
        }
      }
    }

    lemma KeepAssigning(i: nat, before: map<T, T>)
      requires i < |order| && FinishOrder(edges, order) && Elements(order) == visited
      requires forall x :: x in visited <==> ReachableFrom(edges, nodes, x)
      requires Elements(order[i + 1..]) <= before.Keys && PredsIn(edges, before.Keys, before.Keys) && RootsIn(before)
      requires forall x :: x in before ==> ReachableFrom(edges, nodes, before[x]) && Reach(edges, x, before[x])
      requires SealedOff(edges, nodes) ==> Separates(edges, before) && WholeComponents(edges, before.Keys)
      requires before.Keys + {order[i]} <= roots.Keys && (order[i] in before ==> roots == before)
      requires forall x :: x in before ==> roots[x] == before[x]
      requires forall x :: x in roots && x !in before ==> roots[x] == order[i] && Reach(edges, x, order[i])
      requires PredsIn(edges, roots.Keys - before.Keys, roots.Keys)
      ensures Assigning(Elements(order[i..]))
      ensures SealedOff(edges, nodes) ==> Separates(edges, roots) && WholeComponents(edges, roots.Keys)
    {
      hide FinishOrder, WholeComponents, Separates;
      var r := order[i];
      assert order[i..] == [r] + order[i + 1..];
      assert r in visited;
      if r !in before && SealedOff(edges, nodes) {
        forall y | Reach(edges, y, r)
          ensures y in order
        {
          SealedReach(edges, nodes, y, r);
        }
        RootSeparates(edges, order, i, before, roots);
      }
    }

    /** Group the nodes by root. */
    method Collect()
      requires components == map[]
      modifies this`components
      ensures components.Keys == roots.Values
      ensures forall r :: r in components ==> components[r] == set x | x in roots && roots[x] == r
    {
      var todo := roots.Keys;
      while todo != {}
        invariant todo <= roots.Keys
        invariant forall r :: r in components <==> exists x :: x in roots && x !in todo && roots[x] == r
        invariant forall r :: r in components ==> components[r] == set x | x in roots && x !in todo && roots[x] == r
      {
        var x :| x in todo;
        components := components[roots[x] := Targets(components, roots[x]) + {x}];
        todo := todo - {x};
      }
    }

    /** Hand out the components. */
    method Emit() returns (out: seq<set<T>>)
      ensures forall c :: c in out <==> c in components.Values
      ensures AllDiffer(components) ==>
              forall i, j :: 0 <= i < j < |out| ==> out[i] != out[j]
    {
      out := [];
      var todo := components.Keys;
      while todo != {}
        invariant todo <= components.Keys
        invariant forall c :: c in out <==> exists r :: r in components && r !in todo && components[r] == c
        invariant AllDiffer(components) ==>
                  forall i, j :: 0 <= i < j < |out| ==> out[i] != out[j]
      {
        var r :| r in todo;
        assert AllDiffer(components) ==> components[r] !in out;
        out := out + [components[r]];
        todo := todo - {r};
      }
    }

    /** Run both sweeps. Roots tell components apart exactly when `nodes` is sealed
        off, and then the sets handed out are the strongly connected components of
        what is reachable from `nodes`. If it is not, every node outside with an edge
        into that part is put into a component it does not belong to. */
    method Run() returns (out: seq<set<T>>)
      requires Ready()
      modifies this
      ensures Separates(edges, roots) <==> SealedOff(edges, nodes)
      ensures SealedOff(edges, nodes) ==> Components(edges, nodes, out)
      ensures forall x :: ReachableFrom(edges, nodes, x) ==> x in roots
      ensures forall a, b :: LeadsIn(edges, nodes, a, b) ==> Misplaced(edges, nodes, roots, a)
    {
      hide Swept, Misplaced;
      VisitAll();
      AssignAll();
      forall a, b | LeadsIn(edges, nodes, a, b)
        ensures Misplaced(edges, nodes, roots, a) && !Separates(edges, roots)
      {
        LeakMerges(a, b);
      }
      if !SealedOff(edges, nodes) {
        var a, b :| Edge(edges, a, b) && ReachableFrom(edges, nodes, b) && !ReachableFrom(edges, nodes, a);
        LeakMerges(a, b);
      }
      Collect();
      GroupsApart(roots, components);
      out := Emit();
      if SealedOff(edges, nodes) {
        GroupsAreComponents(edges, nodes, roots, components, out);
      }
    }

    /** If an edge leads into the visited part from outside it, its source shares a root it does not belong with. */
    lemma LeakMerges(a: T, b: T)
      requires Assigning(visited) && LeadsIn(edges, nodes, a, b)
      requires forall x :: x in visited <==> ReachableFrom(edges, nodes, x)
      ensures Misplaced(edges, nodes, roots, a) && !Separates(edges, roots)
    {
      var r := roots[a];
      if Reach(edges, r, a) {
        ReachableStep(edges, nodes, r, a);
        assert false;
      }
      assert roots[r] == roots[a] && !Mutual(edges, a, r);
    }
  }

  /** The edge from `a` to `b` leads from outside into what is reachable from `nodes`. */
  ghost predicate LeadsIn<T(!new)>(g: map<T, set<T>>, nodes: set<T>, a: T, b: T) {
    Edge(g, a, b) && ReachableFrom(g, nodes, b) && !ReachableFrom(g, nodes, a)
  }

  /** `a` shares its root with a reachable node it is not strongly connected to. */
  ghost predicate Misplaced<T(!new)>(g: map<T, set<T>>, nodes: set<T>, roots: map<T, T>, a: T) {
    && a in roots && ReachableFrom(g, nodes, roots[a])
    && roots[a] in roots && roots[roots[a]] == roots[a]
    && !Mutual(g, a, roots[a])
  }

  /** `out` lists, once each, the strongly connected components of what is reachable from `nodes`. */
  ghost predicate Components<T(!new)>(g: map<T, set<T>>, nodes: set<T>, out: seq<set<T>>) {
    && (forall x :: ReachableFrom(g, nodes, x) <==> exists c :: c in out && x in c)
    && (forall c :: c in out ==> c != {})
    && (forall i, j :: 0 <= i < j < |out| ==> out[i] !! out[j])
    && (forall c, x, y :: c in out && x in c ==> (y in c <==> Mutual(g, x, y)))
  }

  ghost predicate AllDiffer<T>(components: map<T, set<T>>) {
    forall r, r' :: r in components && r' in components && r != r' ==> components[r] != components[r']
  }

  ghost predicate Grouped<T>(roots: map<T, T>, components: map<T, set<T>>) {
    && components.Keys == roots.Values
    && forall r :: r in components ==> components[r] == set x | x in roots && roots[x] == r
  }

  lemma GroupsApart<T>(roots: map<T, T>, components: map<T, set<T>>)
    requires Grouped(roots, components)
    ensures AllDiffer(components)
  {
    forall r, r' | r in components && r' in components && r != r'
      ensures components[r] != components[r']
    {
      assert r in roots.Values;
      var x :| x in roots && roots[x] == r;
      assert x in components[r] && x !in components[r'];
    }
  }

  lemma GroupsAreComponents<T(!new)>(g: map<T, set<T>>, nodes: set<T>, roots: map<T, T>, components: map<T, set<T>>,
                                     out: seq<set<T>>)
    requires Grouped(roots, components) && Separates(g, roots)
    requires forall x :: x in roots <==> ReachableFrom(g, nodes, x)
    requires forall c :: c in out <==> c in components.Values
    requires forall i, j :: 0 <= i < j < |out| ==> out[i] != out[j]
    requires SealedOff(g, nodes)
    ensures Components(g, nodes, out)
  {
    forall c | c in out
      ensures IsGroup(roots, c)
    {
      var r :| r in components && components[r] == c;
      assert r in roots.Values;
      var x :| x in roots && roots[x] == r;
      assert x in c;
    }
    forall x | x in roots
      ensures exists c :: c in out && x in c
    {
      var c := components[roots[x]];
      assert c in components.Values && c in out && x in c;
    }
    forall c, x, y | c in out && x in c
      ensures y in c <==> Mutual(g, x, y)
    {
      assert IsGroup(roots, c);
      if Mutual(g, x, y) {
        SealedReach(g, nodes, y, x);
      }
    }
    forall i, j | 0 <= i < j < |out|
      ensures out[i] !! out[j]
    {
      assert out[i] in out && out[j] in out && IsGroup(roots, out[i]) && IsGroup(roots, out[j]);
      if x :| x in out[i] && x in out[j] {
        assert false;
      }
    }
  }

  ghost predicate IsGroup<T>(roots: map<T, T>, c: set<T>) {
    exists r :: r in roots.Values && c == (set x | x in roots && roots[x] == r) && c != {}
  }

  /** With all mentioned nodes as starting points, nothing is left outside. */
  lemma WholeGraphSealed<T(!new)>(g: map<T, set<T>>)
    ensures SealedOff(g, Mentioned(g)) && forall x :: ReachableFrom(g, Mentioned(g), x) <==> x in Mentioned(g)
  {
    forall x | x in Mentioned(g)
      ensures ReachableFrom(g, Mentioned(g), x)
    {
      ReachRefl(g, x);
    }
    forall x | ReachableFrom(g, Mentioned(g), x)
      ensures x in Mentioned(g)
    {
      var n :| n in Mentioned(g) && Reach(g, n, x);
      ReachPlusSplit(g, n, x);
      if n != x {
        var p := LastStep(g, n, x);
      }
    }
  }

  /** Only 1 is reachable from 1, and 0 has an edge to it. */
  lemma UnsealedFacts(g: map<int, set<int>>, x: int)
    requires g == map[0 := {1}]
    ensures ReachableFrom(g, {1}, x) <==> x == 1
  {
    ReachRefl(g, 1);
    if ReachableFrom(g, {1}, x) && x != 1 {
      ReachPlusSplit(g, 1, x);
      var s := FirstStep(g, 1, x);
      assert false;
    }
  }

  /** Starting from the end of an edge only, the edge's source gets the end's root, though nothing leads back to it. */
  method UnsealedExample() returns (k: Kosaraju<int>)
    ensures k.edges == map[0 := {1}] && k.nodes == {1} && !SealedOff(k.edges, k.nodes)
    ensures 0 in k.roots && 1 in k.roots && k.roots[0] == k.roots[1] && !Mutual(k.edges, 0, 1)
  {
    hide Mutual;
    var g: map<int, set<int>> := map[0 := {1}];
    k := new Kosaraju<int>.OfNodes({1}, g);
    var out := k.Run();
    UnsealedFacts(g, 0);
    UnsealedFacts(g, 1);
    assert LeadsIn(g, {1}, 0, 1);
    UnsealedFacts(g, k.roots[0]);
  }
}
