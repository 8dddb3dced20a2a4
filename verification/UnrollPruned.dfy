/** The whole construction: unroll and inline, then delete dead ends. The paths of the
    result from entry to exit are, one to one, the program's complete runs within bounds. */
module UnrollPruned {
  import opened Digraph
  import opened Program
  import opened UnrollSpec
  import opened Unroll
  import opened UnrollTheorems
  import opened UnrollRuns
  import Binrel
  import Cleanup

  /** A run within bounds that ends where `f` returns. */
  ghost predicate Completes(cx: Config, f: FuncName, es: seq<Addr>)
    requires ConfigOk(cx)
  {
    Run(cx, f, es) && Bounded(cx, f, es) && Returned(cx, es[|es| - 1])
  }

  /** `q` leads from node 0 to node 1 through nodes that stand for the positions `es`. */
  ghost predicate Carries(fwd: map<nat, set<nat>>, at: map<nat, Addr>, es: seq<Addr>, q: seq<nat>) {
    && Path(fwd, [0] + q + [1], 0, 1)
    && |q| == |es| > 0
    && (forall i :: 0 <= i < |q| ==> q[i] in at && Erase(at[q[i]]) == es[i])
  }

  ghost function Labels(addr: seq<Addr>): map<nat, Addr> {
    map r: nat | 2 <= r < |addr| :: addr[r]
  }

  // ---------------------------------------------------------------- before pruning

  lemma LiftCarries(addr: seq<Addr>, fwd: map<nat, set<nat>>, es: seq<Addr>, q: seq<nat>)
    ensures Carries(fwd, Labels(addr), es, q) <==> Lifts(addr, fwd, es, q) && Edge(fwd, q[|q| - 1], 1)
  {
    var p := [0] + q + [1];
    if |q| > 0 {
      assert p[1] == q[0] && p[|q|] == q[|q| - 1] && p[|q| + 1] == 1;
      if Carries(fwd, Labels(addr), es, q) {
        assert Edge(fwd, p[0], p[0 + 1]) && Edge(fwd, p[|q|], p[|q| + 1]);
        forall i | 0 <= i < |q| - 1
          ensures Edge(fwd, q[i], q[i + 1])
        {
          assert Edge(fwd, p[i + 1], p[i + 1 + 1]);
        }
      }
      if Lifts(addr, fwd, es, q) && Edge(fwd, q[|q| - 1], 1) {
        forall i | 0 <= i < |p| - 1
          ensures Edge(fwd, p[i], p[i + 1])
        {
          if 0 < i < |q| {
            assert Edge(fwd, q[i - 1], q[i - 1 + 1]);
          }
        }
      }
    }
  }

  lemma ReturnedErased(cx: Config, a: Addr)
    requires AllFramesOk(cx, a)
    ensures Returned(cx, Erase(a)) <==> Returned(cx, a)
  {
    EraseFrames(cx, a);
  }

  lemma ReturnEdge(cx: Config, f: FuncName, addr: seq<Addr>, fwd: map<nat, set<nat>>, r: nat)
    requires ConfigOk(cx) && UnrolledGraph(cx, f, addr, fwd) && 2 <= r < |addr|
    ensures Edge(fwd, r, 1) <==> Returned(cx, Erase(addr[r]))
  {
    hide Step, Enter, FrameOk, Returned, InView, CalledAt;
    assert InPart(cx, [], f, Body(cx.prog[f].root), [], addr[r]);
    ReturnedErased(cx, addr[r]);
  }

  /** Before pruning, the paths from entry to exit stand for the complete runs within bounds. */
  lemma CompleteRuns(cx: Config, f: FuncName, addr: seq<Addr>, fwd: map<nat, set<nat>>, es: seq<Addr>)
    requires ConfigOk(cx) && UnrolledGraph(cx, f, addr, fwd)
    ensures (exists q :: Carries(fwd, Labels(addr), es, q)) <==> Completes(cx, f, es)
  {
    hide UnrolledGraph, Lifts, Carries, Bounded, Returned;
    if q :| Carries(fwd, Labels(addr), es, q) {
      LiftCarries(addr, fwd, es, q);
      LiftIsRun(cx, f, addr, fwd, es, q);
      LiftParts(addr, fwd, es, q);
      ReturnEdge(cx, f, addr, fwd, q[|q| - 1]);
    }
    if Completes(cx, f, es) {
      var q := BoundedLifts(cx, f, addr, fwd, es);
      LiftParts(addr, fwd, es, q);
      ReturnEdge(cx, f, addr, fwd, q[|q| - 1]);
      LiftCarries(addr, fwd, es, q);
    }
  }

  lemma OnePath(cx: Config, f: FuncName, addr: seq<Addr>, fwd: map<nat, set<nat>>, es: seq<Addr>, q: seq<nat>,
                q': seq<nat>)
    requires ConfigOk(cx) && UnrolledGraph(cx, f, addr, fwd)
    requires Carries(fwd, Labels(addr), es, q) && Carries(fwd, Labels(addr), es, q')
    ensures q == q'
  {
    hide UnrolledGraph, Lifts, Carries;
    LiftCarries(addr, fwd, es, q);
    LiftCarries(addr, fwd, es, q');
    LiftUnique(cx, f, addr, fwd, es, q, q');
  }

  // ---------------------------------------------------------------- after pruning

  /** `m` gives the nodes that reach the exit their new names, and `fwd'` is what is left of `fwd`. */
  ghost predicate Pruned(fwd: map<nat, set<nat>>, m: map<nat, nat>, n: nat, fwd': map<nat, set<nat>>) {
    && Cleanup.Renaming(m, n) && Cleanup.Renamed(fwd, m, fwd')
    && (forall x :: x in m <==> x in fwd && Reach(fwd, x, 1))
    && (forall i: nat, j: nat :: Edge(fwd', i, j) ==> i < n && j < n)
    && 1 in fwd && (forall s :: !Edge(fwd, 1, s))
  }

  /** The positions that the new names stand for. */
  ghost function NewLabels(m: map<nat, nat>, n: nat, addr: seq<Addr>): (at: map<nat, Addr>)
    requires Cleanup.Renaming(m, n)
    ensures forall x :: x in m && 2 <= x < |addr| ==> m[x] in at && at[m[x]] == addr[x]
    ensures forall x :: x in m && m[x] in at ==> 2 <= x < |addr|
  {
    map x: nat | x in m && 2 <= x < |addr| :: m[x] := addr[x]
  }

  /** The nodes of a path to the exit have new names. */
  lemma PathNamed(fwd: map<nat, set<nat>>, m: map<nat, nat>, n: nat, fwd': map<nat, set<nat>>, p: seq<nat>, a: nat)
    requires Pruned(fwd, m, n, fwd') && Path(fwd, p, a, 1)
    ensures forall i :: 0 <= i < |p| ==> p[i] in m
    ensures a in m && 1 in m && Path(fwd', Cleanup.Image(m, p), m[a], m[1])
  {
    hide Cleanup.Renaming, Cleanup.Renamed;
    forall i | 0 <= i < |p|
      ensures p[i] in m
    {
      PathVia(fwd, p, a, 1, i);
      assert i < |p| - 1 ==> Edge(fwd, p[i], p[i + 1]);
    }
    assert p[0] == a && p[|p| - 1] == 1;
    Cleanup.PathRenamed(fwd, m, n, fwd', p, a, 1);
  }

  /** A path to the exit survives under its new names. */
  lemma PathSurvives(fwd: map<nat, set<nat>>, m: map<nat, nat>, n: nat, fwd': map<nat, set<nat>>, addr: seq<Addr>,
                     es: seq<Addr>, q: seq<nat>)
    returns (q': seq<nat>)
    requires Pruned(fwd, m, n, fwd') && Carries(fwd, Labels(addr), es, q)
    ensures 0 in m && 1 in m
    ensures m[0] == 0 && m[1] == 1 ==> Carries(fwd', NewLabels(m, n, addr), es, q')
  {
    hide Cleanup.Renamed, Cleanup.Hit, Path, Reach, Erase;
    var p := [0] + q + [1];
    PathNamed(fwd, m, n, fwd', p, 0);
    assert forall i :: 0 <= i < |q| ==> q[i] == p[i + 1];
    q' := Cleanup.Image(m, q);
    if m[0] == 0 && m[1] == 1 {
      assert Cleanup.Image(m, p) == [0] + q' + [1];
    }
  }

  /** A path under new names was there before. */
  lemma PathUnnamed(fwd: map<nat, set<nat>>, m: map<nat, nat>, n: nat, fwd': map<nat, set<nat>>, p': seq<nat>, a: nat,
                    b: nat)
    returns (p: seq<nat>)
    requires Pruned(fwd, m, n, fwd') && |p'| >= 2 && a in m && b in m && Path(fwd', p', m[a], m[b])
    ensures Path(fwd, p, a, b) && |p| == |p'| && p[0] == a && p[|p| - 1] == b
    ensures forall i :: 0 <= i < |p| ==> p[i] in m && m[p[i]] == p'[i]
  {
    hide Cleanup.Renamed, Cleanup.Hit, Reach;
    forall i | 0 <= i < |p'|
      ensures p'[i] < n
    {
      var k := if i == |p'| - 1 then i - 1 else i;
      assert Edge(fwd', p'[k], p'[k + 1]);
    }
    p := Cleanup.PathComesFrom(m, n, p');
    assert p[0] == a && p[|p| - 1] == b;
    Cleanup.PathRenamed(fwd, m, n, fwd', p, a, b);
  }

  /** A path from 0 to 1 under new names was there before. */
  lemma PathWasThere(fwd: map<nat, set<nat>>, m: map<nat, nat>, n: nat, fwd': map<nat, set<nat>>, addr: seq<Addr>,
                     es: seq<Addr>, q': seq<nat>)
    returns (q: seq<nat>)
    requires Pruned(fwd, m, n, fwd') && Carries(fwd', NewLabels(m, n, addr), es, q') && 0 in m && 1 in m && m[0] == 0
    requires m[1] == 1
    ensures Carries(fwd, Labels(addr), es, q)
    ensures (forall i :: 0 <= i < |q| ==> q[i] in m) && q' == Cleanup.Image(m, q)
  {
    hide Pruned, NewLabels, Erase, Path;
    var p' := [0] + q' + [1];
    assert p'[0] == 0 && p'[|p'| - 1] == 1;
    var p := PathUnnamed(fwd, m, n, fwd', p', 0, 1);
    q := p[1..|p| - 1];
    assert p == [0] + q + [1];
    forall i | 0 <= i < |q|
      ensures q[i] in m && q'[i] == m[q[i]] && q[i] in Labels(addr) && Erase(Labels(addr)[q[i]]) == es[i]
    {
      assert q[i] == p[i + 1] && q'[i] == p'[i + 1];
    }
  }

  /** Without its entry, the pruned graph has nothing that leads on from node 0. */
  lemma NothingFromExit(fwd: map<nat, set<nat>>, m: map<nat, nat>, n: nat, fwd': map<nat, set<nat>>, at: map<nat, Addr>,
                        es: seq<Addr>, q': seq<nat>)
    requires Pruned(fwd, m, n, fwd') && 1 in m && m[1] == 0
    ensures !Carries(fwd', at, es, q')
  {
    var p' := [0] + q' + [1];
    assert p'[0] == 0 && !Edge(fwd', p'[0], p'[0 + 1]);
  }

  /** The entry's and the exit's names are still right exactly when some path leads from one to the other. */
  lemma NamesKeptIff(fwd: map<nat, set<nat>>, m: map<nat, nat>, n: nat, fwd': map<nat, set<nat>>)
    requires Pruned(fwd, m, n, fwd') && 0 in fwd && Cleanup.Increasing(m)
    requires forall x :: x in m ==> (m[x] == x <==> forall y: nat :: y < x ==> y in m)
    ensures 1 in m && (0 in m <==> Reach(fwd, 0, 1))
    ensures if 0 in m then m[0] == 0 && m[1] == 1 else m[1] == 0
  {
    hide Cleanup.Renamed;
    ReachRefl(fwd, 1);
    assert Cleanup.Hit(m, 0) by {
      assert m[1] < n;
    }
  }

  /** Pruning keeps the paths from entry to exit, one to one. */
  lemma PathsKept(fwd: map<nat, set<nat>>, m: map<nat, nat>, n: nat, fwd': map<nat, set<nat>>, addr: seq<Addr>,
                  es: seq<Addr>)
    requires Pruned(fwd, m, n, fwd') && 1 in m && if 0 in m then m[0] == 0 && m[1] == 1 else m[1] == 0
    ensures (exists q :: Carries(fwd, Labels(addr), es, q)) <==>
            (exists q' :: Carries(fwd', NewLabels(m, n, addr), es, q'))
  {
    hide Carries, Labels, NewLabels, Cleanup.Renaming, Cleanup.Renamed;
    if q :| Carries(fwd, Labels(addr), es, q) {
      var q' := PathSurvives(fwd, m, n, fwd', addr, es, q);
    }
    if q' :| Carries(fwd', NewLabels(m, n, addr), es, q') {
      if 0 in m {
        var q := PathWasThere(fwd, m, n, fwd', addr, es, q');
      } else {
        NothingFromExit(fwd, m, n, fwd', NewLabels(m, n, addr), es, q');
      }
    }
  }

  lemma PathsUnique(cx: Config, f: FuncName, addr: seq<Addr>, fwd: map<nat, set<nat>>, m: map<nat, nat>, n: nat,
                    fwd': map<nat, set<nat>>, es: seq<Addr>, q: seq<nat>, q': seq<nat>)
    requires ConfigOk(cx) && UnrolledGraph(cx, f, addr, fwd)
    requires Pruned(fwd, m, n, fwd') && 1 in m && if 0 in m then m[0] == 0 && m[1] == 1 else m[1] == 0
    requires Carries(fwd', NewLabels(m, n, addr), es, q) && Carries(fwd', NewLabels(m, n, addr), es, q')
    ensures q == q'
  {
    hide UnrolledGraph, Carries, Labels, NewLabels, Cleanup.Renaming, Cleanup.Renamed;
    if 0 in m {
      var r := PathWasThere(fwd, m, n, fwd', addr, es, q);
      var r' := PathWasThere(fwd, m, n, fwd', addr, es, q');
      OnePath(cx, f, addr, fwd, es, r, r');
    } else {
      NothingFromExit(fwd, m, n, fwd', NewLabels(m, n, addr), es, q);
    }
  }

  lemma NoCycle(g: map<nat, set<nat>>, p: seq<nat>, a: nat)
    requires Acyclic(g) && Path(g, p, a, a)
    ensures |p| < 2
  {
    assert !ReachPlus(g, a, a);
  }

  lemma AcyclicPruned(fwd: map<nat, set<nat>>, m: map<nat, nat>, n: nat, fwd': map<nat, set<nat>>)
    requires Pruned(fwd, m, n, fwd') && Acyclic(fwd)
    ensures Acyclic(fwd')
  {
    hide Cleanup.Renamed;
    forall i: nat | ReachPlus(fwd', i, i)
      ensures false
    {
      var p' :| Path(fwd', p', i, i) && |p'| >= 2;
      assert Edge(fwd', p'[0], p'[0 + 1]);
      assert Cleanup.Hit(m, i);
      var y :| y in m && m[y] == i;
      var p := PathUnnamed(fwd, m, n, fwd', p', y, y);
      NoCycle(fwd, p, y);
    }
  }

  // ---------------------------------------------------------------- the construction

  /** Every node but one entry and one exit stands for a position of its own, carries the instruction there, and
      shares identifiers exactly with the nodes of the same activation and of the same copy of a loop body. */
  ghost predicate Marked(cx: Config, nodes: seq<Node>, at: map<nat, Addr>) {
    && (forall i :: i in at ==> i < |nodes| && Labelled(nodes[i], at[i]))
    && (forall i: nat :: i < |nodes| && i !in at ==> !nodes[i].Inst?)
    && (forall i: nat, j: nat :: i < |nodes| && j < |nodes| && nodes[i] == nodes[j] && i !in at ==> i == j)
    && (forall i, j :: i in at && j in at && at[i] == at[j] ==> i == j)
    && (forall i, j :: i in at && j in at && i < |nodes| && j < |nodes| ==>
          ToldApart(cx, nodes[i], at[i], nodes[j], at[j]))
  }

  /** The same of the graph before pruning. */
  ghost predicate MarkedAll(cx: Config, nodes: seq<Node>, addr: seq<Addr>) {
    && |nodes| == |addr| && |nodes| >= 2 && nodes[0] == Entry && nodes[1] == Exit
    && (forall r: nat :: 2 <= r < |nodes| ==> Labelled(nodes[r], addr[r]))
    && (forall r: nat, t: nat :: 2 <= r < |nodes| && 2 <= t < |nodes| && addr[r] == addr[t] ==> r == t)
    && (forall r: nat, t: nat :: 2 <= r < |nodes| && 2 <= t < |nodes| ==>
          ToldApart(cx, nodes[r], addr[r], nodes[t], addr[t]))
  }

  /** What a new name was before. */
  lemma OldName(addr: seq<Addr>, nodes: seq<Node>, m: map<nat, nat>, nodes': seq<Node>, i: nat) returns (x: nat)
    requires Cleanup.Renaming(m, |nodes'|) && |nodes| == |addr| && i < |nodes'|
    requires forall x :: x in m ==> x < |nodes| && nodes'[m[x]] == nodes[x]
    ensures x in m && x < |nodes| && m[x] == i && nodes'[i] == nodes[x]
    ensures var at := NewLabels(m, |nodes'|, addr); (i in at <==> x >= 2) && (i in at ==> at[i] == addr[x])
  {
    hide NewLabels;
    assert Cleanup.Hit(m, i);
    x :| x in m && m[x] == i;
  }

  /** Pruning moves the nodes together with their names. */
  lemma MarkedHolds(cx: Config, addr: seq<Addr>, nodes: seq<Node>, m: map<nat, nat>, nodes': seq<Node>)
    requires MarkedAll(cx, nodes, addr) && Cleanup.Renaming(m, |nodes'|)
    requires forall x :: x in m ==> x < |nodes| && nodes'[m[x]] == nodes[x]
    ensures Marked(cx, nodes', NewLabels(m, |nodes'|, addr))
  {
    hide ToldApart, NewLabels, Cleanup.Renaming, Labelled;
    var at := NewLabels(m, |nodes'|, addr);
    NewLabelsNamed(m, |nodes'|, addr);
    forall i: nat | i < |nodes'|
      ensures if i in at then Labelled(nodes'[i], at[i]) else !nodes'[i].Inst?
    {
      var x := OldName(addr, nodes, m, nodes', i);
    }
    forall i: nat, j: nat | i < |nodes'| && j < |nodes'|
      ensures nodes'[i] == nodes'[j] && i !in at ==> i == j
      ensures i in at && j in at ==> (at[i] == at[j] ==> i == j) && ToldApart(cx, nodes'[i], at[i], nodes'[j], at[j])
    {
      MarkedPair(cx, addr, nodes, m, nodes', i, j);
    }
  }

  lemma MarkedPair(cx: Config, addr: seq<Addr>, nodes: seq<Node>, m: map<nat, nat>, nodes': seq<Node>, i: nat, j: nat)
    requires MarkedAll(cx, nodes, addr) && Cleanup.Renaming(m, |nodes'|) && i < |nodes'| && j < |nodes'|
    requires forall x :: x in m ==> x < |nodes| && nodes'[m[x]] == nodes[x]
    ensures var at := NewLabels(m, |nodes'|, addr);
            && (nodes'[i] == nodes'[j] && i !in at ==> i == j)
            && (i in at && j in at ==> (at[i] == at[j] ==> i == j) && ToldApart(cx, nodes'[i], at[i], nodes'[j], at[j]))
  {
    hide ToldApart, NewLabels, Cleanup.Renaming;
    var x := OldName(addr, nodes, m, nodes', i);
    var y := OldName(addr, nodes, m, nodes', j);
    assert y >= 2 ==> Labelled(nodes[y], addr[y]);
  }

  lemma NewLabelsNamed(m: map<nat, nat>, n: nat, addr: seq<Addr>)
    requires Cleanup.Renaming(m, n)
    ensures forall i :: i in NewLabels(m, n, addr) ==> i < n
  {
  }

  lemma PositionsDiffer(cx: Config, f: FuncName, addr: seq<Addr>, fwd: map<nat, set<nat>>)
    requires ConfigOk(cx) && UnrolledGraph(cx, f, addr, fwd)
    ensures forall r: nat, t: nat :: 2 <= r < |addr| && 2 <= t < |addr| && addr[r] == addr[t] ==> r == t
  {
    hide Step, Enter, InPart, Returned, FrameOk;
  }

  /** What the construction yields. Its paths from node 0 to node 1 are the complete runs
      within bounds, each once; and the entry and the exit still bear these names exactly
      when there is such a run. */
  ghost predicate Built(cx: Config, f: FuncName, nodes: seq<Node>, fwd: map<nat, set<nat>>, at: map<nat, Addr>)
    requires ConfigOk(cx)
  {
    && Acyclic(fwd)
    && Marked(cx, nodes, at)
    && (forall es :: (exists q :: Carries(fwd, at, es, q)) <==> Completes(cx, f, es))
    && (forall es, q, q' :: Carries(fwd, at, es, q) && Carries(fwd, at, es, q') ==> q == q')
    && (|nodes| >= 2 && nodes[0] == Entry && nodes[1] == Exit <==> exists es :: Completes(cx, f, es))
    && ((forall es :: !Completes(cx, f, es)) ==> |nodes| >= 1 && nodes[0] == Exit && ExitAt(cx, nodes, fwd, at, 0))
  }

  /** Every node reaches node `x`, which is entered only from where `f` returns. */
  ghost predicate ExitAt(cx: Config, nodes: seq<Node>, fwd: map<nat, set<nat>>, at: map<nat, Addr>, x: nat) {
    && (forall i: nat :: i < |nodes| ==> Reach(fwd, i, x))
    && (forall i: nat :: Edge(fwd, i, x) ==> i in at && Returned(cx, at[i]))
  }

  lemma ExitAtHolds(cx: Config, f: FuncName, addr: seq<Addr>, fwd: map<nat, set<nat>>, m: map<nat, nat>,
                    nodes': seq<Node>, fwd': map<nat, set<nat>>)
    requires ConfigOk(cx) && UnrolledGraph(cx, f, addr, fwd) && Pruned(fwd, m, |nodes'|, fwd') && 1 in m
    ensures ExitAt(cx, nodes', fwd', NewLabels(m, |nodes'|, addr), m[1])
  {
    hide Step, Enter, FrameOk, Returned, InPart, Covers, Reach, Erase;
    var n, at := |nodes'|, NewLabels(m, |nodes'|, addr);
    forall i: nat | i < n
      ensures Reach(fwd', i, m[1])
    {
      assert Cleanup.Hit(m, i);
      var y :| y in m && m[y] == i;
      ExitReached(fwd, m, n, fwd', y);
    }
    forall i: nat | Edge(fwd', i, m[1])
      ensures i in at && Returned(cx, at[i])
    {
      assert Cleanup.Hit(m, i);
      var y :| y in m && m[y] == i;
      assert Edge(fwd, y, 1);
    }
  }

  lemma ExitReached(fwd: map<nat, set<nat>>, m: map<nat, nat>, n: nat, fwd': map<nat, set<nat>>, y: nat)
    requires Pruned(fwd, m, n, fwd') && 1 in m && y in m
    ensures Reach(fwd', m[y], m[1])
  {
    hide Cleanup.Renaming, Cleanup.Renamed, Path;
    var p :| Path(fwd, p, y, 1);
    PathNamed(fwd, m, n, fwd', p, y);
  }

  lemma BuiltHolds(cx: Config, f: FuncName, addr: seq<Addr>, nodes: seq<Node>, fwd: map<nat, set<nat>>,
                   m: map<nat, nat>, nodes': seq<Node>, fwd': map<nat, set<nat>>)
    requires ConfigOk(cx) && UnrolledGraph(cx, f, addr, fwd) && Pruned(fwd, m, |nodes'|, fwd')
    requires 0 in fwd && Cleanup.Increasing(m)
    requires forall x :: x in m ==> (m[x] == x <==> forall y: nat :: y < x ==> y in m)
    requires MarkedAll(cx, nodes, addr)
    requires forall x :: x in m ==> x < |nodes| && nodes'[m[x]] == nodes[x]
    ensures Built(cx, f, nodes', fwd', NewLabels(m, |nodes'|, addr))
  {
    hide UnrolledGraph, Carries, Completes, Labels, NewLabels, Cleanup.Hit, Cleanup.Renamed, Reach, Acyclic, ExitAt,
         Marked, Labelled, ToldApart;
    var n := |nodes'|;
    var at := NewLabels(m, n, addr);
    UnrolledAcyclic(cx, f, addr, fwd);
    AcyclicPruned(fwd, m, n, fwd');
    NamesKeptIff(fwd, m, n, fwd');
    forall es
      ensures (exists q :: Carries(fwd', at, es, q)) <==> Completes(cx, f, es)
    {
      PathsKept(fwd, m, n, fwd', addr, es);
      CompleteRuns(cx, f, addr, fwd, es);
    }
    forall es, q, q' | Carries(fwd', at, es, q) && Carries(fwd', at, es, q')
      ensures q == q'
    {
      PathsUnique(cx, f, addr, fwd, m, n, fwd', es, q, q');
    }
    SomeRunIff(cx, f, addr, fwd);
    MarkedHolds(cx, addr, nodes, m, nodes');
    ExitAtHolds(cx, f, addr, fwd, m, nodes', fwd');
  }

  /** The exit can be reached from the entry exactly when there is a complete run within bounds. */
  lemma SomeRunIff(cx: Config, f: FuncName, addr: seq<Addr>, fwd: map<nat, set<nat>>)
    requires ConfigOk(cx) && UnrolledGraph(cx, f, addr, fwd)
    ensures Reach(fwd, 0, 1) <==> exists es :: Completes(cx, f, es)
  {
    hide Completes, Labels;
    if es :| Completes(cx, f, es) {
      CompleteRuns(cx, f, addr, fwd, es);
      var q :| Carries(fwd, Labels(addr), es, q);
      assert Path(fwd, [0] + q + [1], 0, 1);
    }
    if p :| Path(fwd, p, 0, 1) {
      var es := PathCarries(cx, f, addr, fwd, p);
      CompleteRuns(cx, f, addr, fwd, es);
    }
  }

  lemma PathCarries(cx: Config, f: FuncName, addr: seq<Addr>, fwd: map<nat, set<nat>>, p: seq<nat>)
    returns (es: seq<Addr>)
    requires ConfigOk(cx) && UnrolledGraph(cx, f, addr, fwd) && Path(fwd, p, 0, 1)
    ensures Carries(fwd, Labels(addr), es, p[1..|p| - 1])
  {
    hide Step, Enter, FrameOk, Returned, InPart;
    assert Edge(fwd, p[0], p[0 + 1]);
    var q := p[1..|p| - 1];
    forall i | 0 <= i < |q|
      ensures 2 <= q[i] < |addr|
    {
      assert Edge(fwd, p[i], p[i + 1]) && Edge(fwd, p[i + 1], p[i + 1 + 1]);
    }
    assert p == [0] + q + [1];
    es := seq(|q|, i requires 0 <= i < |q| => Erase(addr[q[i]]));
  }

  lemma ReadyToPrune(cx: Config, f: FuncName, u: Unroller)
    requires u.Valid() && u.cx == cx && UnrolledGraph(cx, f, u.addr, u.fwd)
    ensures Cleanup.Indexed(u.fwd, u.rev, |u.nodes|) && |u.nodes| >= 2 && u.fwd[1] == {}
    ensures forall s :: !Edge(u.fwd, 1, s)
    ensures forall x :: x in u.fwd ==> x < |u.nodes|
  {
    hide Step, Enter, FrameOk, Returned, InPart, Covers, ConfigOk, Unroller.IdsOk;
    u.EdgesInGraph();
    assert forall s :: s in u.fwd[1] ==> Edge(u.fwd, 1, s);
  }

  lemma PrunedHolds(fwd: map<nat, set<nat>>, m: map<nat, nat>, n: nat, fwd': map<nat, set<nat>>,
                    rev': map<nat, set<nat>>)
    requires Cleanup.Renaming(m, n) && Cleanup.Renamed(fwd, m, fwd') && Cleanup.Indexed(fwd', rev', n)
    requires forall x :: x in m <==> x in fwd && Cleanup.ReachesExit(fwd, {1}, x)
    requires 1 in fwd && forall s :: !Edge(fwd, 1, s)
    ensures Pruned(fwd, m, n, fwd')
  {
    hide Cleanup.Renaming, Cleanup.Renamed, Reach;
    forall x: nat
      ensures x in m <==> x in fwd && Reach(fwd, x, 1)
    {
      assert Cleanup.ReachesExit(fwd, {1}, x) <==> Reach(fwd, x, 1) by {
        assert 1 in {1};
      }
    }
    forall i: nat, j: nat | Edge(fwd', i, j)
      ensures i < n && j < n
    {
      assert j in fwd';
    }
  }

  lemma MarkedNow(cx: Config, u: Unroller)
    requires u.Valid() && u.cx == cx && |u.nodes| >= 2 && u.nodes[0] == Entry && u.nodes[1] == Exit
    requires forall r: nat :: 2 <= r < |u.nodes| ==> Labelled(u.nodes[r], u.addr[r])
    requires forall r: nat, t: nat :: 2 <= r < |u.addr| && 2 <= t < |u.addr| && u.addr[r] == u.addr[t] ==> r == t
    requires forall r: nat, t: nat :: 2 <= r < |u.nodes| && 2 <= t < |u.nodes| ==>
               ToldApart(cx, u.nodes[r], u.addr[r], u.nodes[t], u.addr[t])
    ensures MarkedAll(cx, u.nodes, u.addr)
  {
    hide Labelled, ToldApart;
  }

  /** Unroll `f` and prune the graph. */
  method Build(cx: Config, f: FuncName) returns (cfg: Cleanup.CFG<Node>, ghost at: map<nat, Addr>)
    requires ConfigOk(cx) && f in cx.prog
    ensures fresh(cfg) && Cleanup.Indexed(cfg.po.fwd, cfg.po.rev, |cfg.nodes|)
    ensures cfg.entry == 0 && cfg.exits == {1} && Built(cx, f, cfg.nodes, cfg.po.fwd, at)
  {
    hide *;
    var u := new Unroller(cx);
    u.Construct(f);
    ReadyToPrune(cx, f, u);
    PositionsDiffer(cx, f, u.addr, u.fwd);
    assert MarkedAll(cx, u.nodes, u.addr) by {
      MarkedNow(cx, u);
    }
    var po := new Binrel.Relation<nat>();
    po.fwd, po.rev := u.fwd, u.rev;
    cfg := new Cleanup.CFG<Node>(u.nodes, po, 0, {1});
    UnrolledAcyclic(cx, f, u.addr, u.fwd);
    ghost var m := cfg.Prune();
    PrunedHolds(u.fwd, m, |cfg.nodes|, cfg.po.fwd, cfg.po.rev);
    at := NewLabels(m, |cfg.nodes|, u.addr);
    BuiltHolds(cx, f, u.addr, u.nodes, u.fwd, m, cfg.nodes, cfg.po.fwd);
  }

  // ---------------------------------------------------------------- a function that never returns

  /** Block 0 goes to block 1, which goes back to itself for ever. */
  function Endless(limit: nat, k: nat): Config {
    Config(map[0 := Circling()], limit, k)
  }

  function Circling(): Function {
    Function(Loop(0, {0, 1}, [Loop(1, {1}, [])]), map[0 := [Plain(0)], 1 := [Plain(1)]], map[0 := {1}, 1 := {1}])
  }

  lemma InnerOk()
    ensures WellNested(Circling(), map[0 := 0, 1 := 1], Loop(1, {1}, [])) && IsLoop(Circling(), Loop(1, {1}, []))
  {
    assert 1 in Circling().succs[0];
  }

  lemma CirclingOk()
    ensures Reducible(Circling())
  {
    hide IsLoop;
    var fn, rank, inner := Circling(), map[0 := 0, 1 := 1], Loop(1, {1}, []);
    InnerOk();
    assert fn.root.subs[0] == inner;
    assert SubIndex(fn.root.subs, 0) < 0 && SubIndex(fn.root.subs, 1) == 0;
    assert SameSub(fn.root, 1, 1) by {
      assert 1 in fn.root.subs[0].blocks;
    }
    assert WellFormed(fn, rank);
  }

  lemma EndlessOk(limit: nat, k: nat)
    ensures ConfigOk(Endless(limit, k))
  {
    hide Reducible;
    CirclingOk();
  }

  lemma EndlessNeverReturns(limit: nat, k: nat, a: Addr)
    ensures !Returned(Endless(limit, k), a)
  {
  }

  /** The entry is pruned, so the exit is renamed to 0 while the graph goes on calling
      node 0 its entry and node 1, which does not exist, its exit. */
  method EndlessLosesNames(limit: nat, k: nat) returns (cfg: Cleanup.CFG<Node>)
    ensures cfg.nodes == [Exit] && cfg.entry == 0 && cfg.exits == {1}
    ensures ConfigOk(Endless(limit, k)) && forall es :: !Completes(Endless(limit, k), 0, es)
  {
    hide *;
    var cx := Endless(limit, k);
    EndlessOk(limit, k);
    ghost var at;
    EndlessFacts(limit, k);
    cfg, at := Build(cx, 0);
    EndlessNodes(limit, k, cfg.nodes, cfg.po.fwd, at);
  }

  lemma EndlessFacts(limit: nat, k: nat)
    requires ConfigOk(Endless(limit, k))
    ensures 0 in Endless(limit, k).prog && forall es :: !Completes(Endless(limit, k), 0, es)
  {
    hide ConfigOk, Returned, Bounded, StepAt;
    forall es | Run(Endless(limit, k), 0, es)
      ensures !Completes(Endless(limit, k), 0, es)
    {
      EndlessNeverReturns(limit, k, es[|es| - 1]);
    }
  }

  lemma EndlessNodes(limit: nat, k: nat, nodes: seq<Node>, fwd: map<nat, set<nat>>, at: map<nat, Addr>)
    requires ConfigOk(Endless(limit, k)) && Built(Endless(limit, k), 0, nodes, fwd, at)
    ensures nodes == [Exit]
  {
    hide ConfigOk, Returned, Completes, Carries, Acyclic, Marked;
    EndlessFacts(limit, k);
    if |nodes| > 1 {
      assert Reach(fwd, 1, 0);
      var p :| Path(fwd, p, 1, 0);
      assert Edge(fwd, p[|p| - 2], p[|p| - 2 + 1]);
      EndlessNeverReturns(limit, k, at[p[|p| - 2]]);
      assert false;
    }
  }

  // ---------------------------------------------------------------- a block that ends with a call

  /** Block 0 ends by calling function 1 and goes on to block 1, which returns. */
  function Invoking(limit: nat, k: nat): Config {
    Config(map[0 := Caller(), 1 := Returning()], limit, k)
  }

  function Caller(): Function {
    Function(Loop(0, {0, 1}, []), map[0 := [Call(1)], 1 := [Plain(0)]], map[0 := {1}, 1 := {}])
  }

  function Returning(): Function {
    Function(Loop(2, {2}, []), map[2 := [Plain(0)]], map[2 := {}])
  }

  lemma CallerOk()
    ensures Reducible(Caller())
  {
    assert WellFormed(Caller(), map[0 := 0, 1 := 1]);
  }

  lemma CalleeOk()
    ensures Reducible(Returning())
  {
    assert WellFormed(Returning(), map[2 := 0]);
  }

  lemma InvokingOk(limit: nat, k: nat)
    ensures ConfigOk(Invoking(limit, k))
  {
    hide Reducible;
    CallerOk();
    CalleeOk();
  }

  lemma InvokingEnters(limit: nat, k: nat)
    requires ConfigOk(Invoking(limit, k))
    ensures var cx, fr, fr', end := Invoking(limit, k), Frame(0, 0, 0, []), Frame(1, 2, 0, []), Frame(0, 1, 0, []);
            && FrameOk(cx, fr) && FrameOk(cx, fr') && FrameOk(cx, end) && Inlined(cx, [], fr)
            && Enter(cx, [], fr) == [fr, fr'] && Enter(cx, [], end) == [end]
  {
    var cx, fr, fr', end := Invoking(limit, k), Frame(0, 0, 0, []), Frame(1, 2, 0, []), Frame(0, 1, 0, []);
    assert HasPredecessor(cx.prog[0], 1) by {
      assert 1 in cx.prog[0].succs[0];
    }
    assert Names([] + [fr]) == [0];
    assert [] + [fr] + [fr'] == [fr, fr'];
  }

  /** The program returns, yet the run is not in the graph: the callee's exits are filed
      under the callee's blocks, so the edges out of block 0 find none. */
  lemma InvokingLosesRun(limit: nat, k: nat)
    ensures var cx, es := Invoking(limit, k), [[Frame(0, 0, 0, []), Frame(1, 2, 0, [])], [Frame(0, 1, 0, [])]];
            ConfigOk(cx) && Run(cx, 0, es) && Returned(cx, es[1]) && Stranded(cx, es[0]) && !Completes(cx, 0, es)
  {
    hide ConfigOk, Enter, Inlined;
    InvokingOk(limit, k);
    InvokingEnters(limit, k);
    var cx, es := Invoking(limit, k), [[Frame(0, 0, 0, []), Frame(1, 2, 0, [])], [Frame(0, 1, 0, [])]];
    assert es[0][..0] == [];
    assert ProgramArrival(cx, es[0][..0], es[0][0], Frame(0, 1, 0, []), es[1]);
    assert StepAt(cx, es, 0);
    RunInit(cx, 0, es);
  }
}
