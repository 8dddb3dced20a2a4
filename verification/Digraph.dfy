/** Finite directed graphs given by successor sets, their paths, and the facts
    about reachability and cycles that the other modules rest on. */
module Digraph {

  ghost predicate Edge<T>(g: map<T, set<T>>, a: T, b: T) {
    a in g && b in g[a]
  }

  /** Every successor of a node of `g` is a node of `g`. */
  ghost predicate Closed<T(!new)>(g: map<T, set<T>>) {
    forall a, b :: Edge(g, a, b) ==> b in g
  }

  /** `rev` is the converse of `fwd`, over the same nodes. */
  ghost predicate Converse<T(!new)>(fwd: map<T, set<T>>, rev: map<T, set<T>>) {
    && fwd.Keys == rev.Keys
    && (forall a, b :: Edge(fwd, a, b) <==> Edge(rev, b, a))
  }

  /** `p` is a path from `a` to `b`; the one-node sequence is the empty path. */
  ghost predicate Path<T>(g: map<T, set<T>>, p: seq<T>, a: T, b: T) {
    && |p| >= 1
    && p[0] == a
    && p[|p| - 1] == b
    && forall i :: 0 <= i < |p| - 1 ==> Edge(g, p[i], p[i + 1])
  }

  ghost predicate Reach<T(!new)>(g: map<T, set<T>>, a: T, b: T) {
    exists p :: Path(g, p, a, b)
  }

  /** Reachability by at least one edge. */
  ghost predicate ReachPlus<T(!new)>(g: map<T, set<T>>, a: T, b: T) {
    exists p :: Path(g, p, a, b) && |p| >= 2
  }

  ghost predicate Mutual<T(!new)>(g: map<T, set<T>>, a: T, b: T) {
    Reach(g, a, b) && Reach(g, b, a)
  }

  ghost predicate Acyclic<T(!new)>(g: map<T, set<T>>) {
    forall a :: !ReachPlus(g, a, a)
  }

  lemma ReachRefl<T(!new)>(g: map<T, set<T>>, a: T)
    ensures Reach(g, a, a)
  {
    assert Path(g, [a], a, a);
  }

  lemma PathAppend<T>(g: map<T, set<T>>, p: seq<T>, q: seq<T>, a: T, b: T, c: T)
    requires Path(g, p, a, b) && Path(g, q, b, c)
    ensures Path(g, p + q[1..], a, c)
    ensures |p + q[1..]| == |p| + |q| - 1
  {
    var r := p + q[1..];
    forall i | 0 <= i < |r| - 1
      ensures Edge(g, r[i], r[i + 1])
    {
      if i >= |p| - 1 {
        assert r[i] == q[i - |p| + 1] && r[i + 1] == q[i - |p| + 1 + 1];
      }
    }
  }

  lemma ReachTrans<T(!new)>(g: map<T, set<T>>, a: T, b: T, c: T)
    requires Reach(g, a, b) && Reach(g, b, c)
    ensures Reach(g, a, c)
  {
    var p :| Path(g, p, a, b);
    var q :| Path(g, q, b, c);
    PathAppend(g, p, q, a, b, c);
  }

  lemma ReachEdge<T(!new)>(g: map<T, set<T>>, a: T, b: T)
    requires Edge(g, a, b)
    ensures Reach(g, a, b) && ReachPlus(g, a, b)
  {
    assert Path(g, [a, b], a, b);
  }

  lemma ReachPlusTrans<T(!new)>(g: map<T, set<T>>, a: T, b: T, c: T)
    requires (ReachPlus(g, a, b) && Reach(g, b, c)) || (Reach(g, a, b) && ReachPlus(g, b, c))
    ensures ReachPlus(g, a, c)
  {
    if ReachPlus(g, a, b) && Reach(g, b, c) {
      var p :| Path(g, p, a, b) && |p| >= 2;
      var q :| Path(g, q, b, c);
      PathAppend(g, p, q, a, b, c);
    } else {
      var p :| Path(g, p, a, b);
      var q :| Path(g, q, b, c) && |q| >= 2;
      PathAppend(g, p, q, a, b, c);
    }
  }

  lemma ReachPlusSplit<T(!new)>(g: map<T, set<T>>, a: T, b: T)
    ensures Reach(g, a, b) <==> a == b || ReachPlus(g, a, b)
  {
    if Reach(g, a, b) {
      var p :| Path(g, p, a, b);
    }
    if a == b {
      ReachRefl(g, a);
    }
  }

  /** A non-empty path starts with an edge. */
  lemma FirstStep<T(!new)>(g: map<T, set<T>>, a: T, b: T) returns (s: T)
    requires ReachPlus(g, a, b)
    ensures Edge(g, a, s) && Reach(g, s, b)
  {
    var p :| Path(g, p, a, b) && |p| >= 2;
    s := p[1];
    PathSuffix(g, p, a, b, 1);
  }

  /** A non-empty path ends with an edge. */
  lemma LastStep<T(!new)>(g: map<T, set<T>>, a: T, b: T) returns (s: T)
    requires ReachPlus(g, a, b)
    ensures Reach(g, a, s) && Edge(g, s, b)
  {
    var p :| Path(g, p, a, b) && |p| >= 2;
    s := p[|p| - 2];
    PathPrefix(g, p, a, b, |p| - 2);
  }

  lemma PathPrefix<T>(g: map<T, set<T>>, p: seq<T>, a: T, b: T, k: nat)
    requires Path(g, p, a, b) && k < |p|
    ensures Path(g, p[..k + 1], a, p[k])
  {
    var q := p[..k + 1];
    forall i | 0 <= i < |q| - 1
      ensures Edge(g, q[i], q[i + 1])
    {
      assert q[i] == p[i] && q[i + 1] == p[i + 1];
    }
  }

  lemma PathSuffix<T>(g: map<T, set<T>>, p: seq<T>, a: T, b: T, k: nat)
    requires Path(g, p, a, b) && k < |p|
    ensures Path(g, p[k..], p[k], b)
  {
    var q := p[k..];
    forall i | 0 <= i < |q| - 1
      ensures Edge(g, q[i], q[i + 1])
    {
      assert q[i] == p[k + i] && q[i + 1] == p[k + i + 1];
    }
  }

  lemma PathVia<T(!new)>(g: map<T, set<T>>, p: seq<T>, a: T, b: T, k: nat)
    requires Path(g, p, a, b) && k < |p|
    ensures Reach(g, a, p[k]) && Reach(g, p[k], b)
  {
    PathPrefix(g, p, a, b, k);
    PathSuffix(g, p, a, b, k);
  }

  /** A path that leaves a set has an edge that leaves the set. */
  lemma Crossing<T(!new)>(g: map<T, set<T>>, inside: iset<T>, a: T, b: T) returns (u: T, v: T)
    requires Reach(g, a, b) && a in inside && b !in inside
    ensures u in inside && v !in inside && Edge(g, u, v)
    ensures Reach(g, a, u) && Reach(g, v, b)
  {
    var p :| Path(g, p, a, b);
    var i := 0;
    while p[i + 1] in inside
      invariant 0 <= i < |p| - 1 && p[i] in inside
      decreases |p| - i
    {
      i := i + 1;
    }
    u, v := p[i], p[i + 1];
    PathVia(g, p, a, b, i);
    PathVia(g, p, a, b, i + 1);
  }

  /** A subset of a finite set has at most as many elements. */
  lemma SubsetCard<T>(a: set<T>, b: set<T>)
    requires a <= b
    ensures |a| <= |b|
    ensures |a| == |b| ==> a == b
  {
    assert b == a + (b - a);
    assert |b| == |a| + |b - a|;
  }

  /** A walk longer than the set it stays in visits some node twice. */
  lemma Pigeonhole<T>(p: seq<T>, s: set<T>) returns (i: nat, j: nat)
    requires |p| > |s| && forall k :: 0 <= k < |p| ==> p[k] in s
    ensures i < j < |p| && p[i] == p[j]
    decreases |p|
  {
    var last := p[|p| - 1];
    if k :| 0 <= k < |p| - 1 && p[k] == last {
      i, j := k, |p| - 1;
    } else {
      var q := p[..|p| - 1];
      i, j := Pigeonhole(q, s - {last});
    }
  }

  ghost predicate HasSuccessorIn<T(!new)>(g: map<T, set<T>>, s: set<T>, a: T) {
    exists b :: b in s && Edge(g, a, b)
  }

  /** A node set each of whose nodes has a successor in it carries walks of every length. */
  lemma {:induction false} Walk<T(!new)>(g: map<T, set<T>>, s: set<T>, start: T, n: nat) returns (p: seq<T>)
    requires start in s
    requires forall a {:trigger HasSuccessorIn(g, s, a)} :: a in s ==> HasSuccessorIn(g, s, a)
    ensures |p| == n + 1 && (forall k :: 0 <= k <= n ==> p[k] in s)
    ensures Path(g, p, start, p[n])
  {
    if n == 0 {
      p := [start];
    } else {
      assert HasSuccessorIn(g, s, start);
      var next :| next in s && Edge(g, start, next);
      var q := Walk(g, s, next, n - 1);
      assert Path(g, [start, next], start, next);
      PathAppend(g, [start, next], q, start, next, q[n - 1]);
      p := [start, next] + q[1..];
      assert p == [start] + q;
    }
  }

  /** A path that visits a node twice contains a cycle. */
  lemma RepeatMakesCycle<T(!new)>(g: map<T, set<T>>, p: seq<T>, a: T, b: T, i: nat, j: nat)
    requires Path(g, p, a, b) && i < j < |p| && p[i] == p[j]
    ensures ReachPlus(g, p[i], p[i])
  {
    PathPrefix(g, p, a, b, j);
    PathSuffix(g, p[..j + 1], a, p[j], i);
    assert |p[..j + 1][i..]| >= 2;
  }

  /** A non-empty finite set each of whose nodes has a successor in the set contains a cycle. */
  lemma SuccessorsMakeCycle<T(!new)>(g: map<T, set<T>>, s: set<T>, start: T)
    requires start in s
    requires forall a {:trigger HasSuccessorIn(g, s, a)} :: a in s ==> HasSuccessorIn(g, s, a)
    ensures !Acyclic(g)
  {
    var p := Walk(g, s, start, |s|);
    var i, j := Pigeonhole(p, s);
    RepeatMakesCycle(g, p, start, p[|s|], i, j);
  }

  /** An acyclic graph's every non-empty finite node set holds a node with no successor in it. */
  lemma AcyclicSink<T(!new)>(g: map<T, set<T>>, s: set<T>) returns (a: T)
    requires Acyclic(g) && s != {}
    ensures a in s && forall b :: b in s ==> !Edge(g, a, b)
  {
    if forall a {:trigger HasSuccessorIn(g, s, a)} :: a in s ==> HasSuccessorIn(g, s, a) {
      var start :| start in s;
      SuccessorsMakeCycle(g, s, start);
      assert false;
    }
    a :| a in s && !HasSuccessorIn(g, s, a);
  }

  /** Converse relations have converse paths. */
  lemma ConversePath<T(!new)>(fwd: map<T, set<T>>, rev: map<T, set<T>>, p: seq<T>, a: T, b: T)
    requires Converse(fwd, rev) && Path(fwd, p, a, b)
    ensures Path(rev, Reversed(p), b, a)
  {
    var q := Reversed(p);
    forall i | 0 <= i < |q| - 1
      ensures Edge(rev, q[i], q[i + 1])
    {
      var k := |p| - 2 - i;
      assert Edge(fwd, p[k], p[k + 1]);
    }
  }

  function Elements<T>(l: seq<T>): set<T> {
    set x | x in l
  }

  /** The elements of a set in some order. */
  method Listed<T(==)>(s: set<T>) returns (l: seq<T>)
    ensures forall x :: x in l <==> x in s
  {
    l := [];
    var todo := s;
    while todo != {}
      invariant todo <= s && forall x :: x in l <==> x in s && x !in todo
    {
      var x :| x in todo;
      l := l + [x];
      todo := todo - {x};
    }
  }

  function Reversed<T>(p: seq<T>): (q: seq<T>)
    ensures |q| == |p| && forall i :: 0 <= i < |p| ==> q[i] == p[|p| - 1 - i]
  {
    seq(|p|, i requires 0 <= i < |p| => p[|p| - 1 - i])
  }

  // ---------------------------------------------------------------- measures on acyclic graphs

  ghost function Ancestors<T(!new)>(g: map<T, set<T>>, x: T): set<T> {
    set y | y in g && ReachPlus(g, y, x)
  }

  ghost function Descendants<T(!new)>(g: map<T, set<T>>, x: T): set<T> {
    set y | y in g && ReachPlus(g, x, y)
  }

  lemma ProperSubset<T>(a: set<T>, b: set<T>, x: T)
    requires a <= b && x in b && x !in a
    ensures |a| < |b|
  {
    SubsetCard(a, b);
  }

  /** Along an edge of an acyclic graph there are more and more ancestors. */
  lemma AncestorsGrow<T(!new)>(g: map<T, set<T>>, a: T, b: T)
    requires Acyclic(g) && Edge(g, a, b)
    ensures |Ancestors(g, a)| < |Ancestors(g, b)|
  {
    ReachEdge(g, a, b);
    forall y | y in Ancestors(g, a)
      ensures y in Ancestors(g, b)
    {
      ReachPlusTrans(g, y, a, b);
    }
    ProperSubset(Ancestors(g, a), Ancestors(g, b), a);
  }

  /** Along an edge of a closed acyclic graph there are fewer and fewer descendants. */
  lemma DescendantsShrink<T(!new)>(g: map<T, set<T>>, a: T, b: T)
    requires Acyclic(g) && Closed(g) && Edge(g, a, b)
    ensures |Descendants(g, b)| < |Descendants(g, a)|
  {
    ReachEdge(g, a, b);
    forall y | y in Descendants(g, b)
      ensures y in Descendants(g, a)
    {
      ReachPlusTrans(g, a, b, y);
    }
    ProperSubset(Descendants(g, b), Descendants(g, a), b);
  }
}
