/** The dominator pass over basic blocks. It gives up each block's set as soon as
    the block's last successor has taken it. */
module Dominators {
  import opened Digraph
  import opened Binrel
  import opened BlockCfg

  datatype Option<T> = None | Some(value: T)

  // ---------------------------------------------------------------- what is computed

  /** A node that nothing precedes. */
  ghost predicate Source(pred: Rows, s: NodeRef) {
    s in pred && pred[s] == {}
  }

  /** Every path to `r` from a source passes `d`. */
  ghost predicate Dominates(succ: Rows, pred: Rows, d: NodeRef, r: NodeRef) {
    forall s, p :: Source(pred, s) && Path(succ, p, s, r) ==> d in p
  }

  ghost function DomSet(succ: Rows, pred: Rows, r: NodeRef): set<NodeRef> {
    set d | d in pred && Dominates(succ, pred, d, r)
  }

  /** The nodes that dominate all of `qs`. */
  ghost function Common(succ: Rows, pred: Rows, qs: set<NodeRef>): set<NodeRef> {
    set d | d in pred && forall q :: q in qs ==> Dominates(succ, pred, d, q)
  }

  lemma SourceAlone(succ: Rows, pred: Rows, r: NodeRef)
    requires Converse(succ, pred) && Source(pred, r)
    ensures DomSet(succ, pred, r) == {r}
  {
    assert Path(succ, [r], r, r);
    forall s, p | Source(pred, s) && Path(succ, p, s, r)
      ensures r in p
    {
      assert p[|p| - 1] == r;
    }
    forall d | d in DomSet(succ, pred, r)
      ensures d == r
    {
      assert d in [r];
    }
  }

  lemma DomStep(succ: Rows, pred: Rows, r: NodeRef)
    requires Converse(succ, pred) && r in pred && pred[r] != {}
    ensures DomSet(succ, pred, r) == Common(succ, pred, pred[r]) + {r}
  {
    forall d | d in DomSet(succ, pred, r) && d != r
      ensures d in Common(succ, pred, pred[r])
    {
      forall q | q in pred[r]
        ensures Dominates(succ, pred, d, q)
      {
        assert Edge(pred, r, q);
        forall s, p | Source(pred, s) && Path(succ, p, s, q)
          ensures d in p
        {
          var p' := p + [r];
          ExtendPath(succ, p, s, q, r);
          assert d in p';
        }
      }
    }
    forall d | d in Common(succ, pred, pred[r])
      ensures d in DomSet(succ, pred, r)
    {
      forall s, p | Source(pred, s) && Path(succ, p, s, r)
        ensures d in p
      {
        assert |p| >= 2;
        var q := p[|p| - 2];
        assert Edge(succ, p[|p| - 2], p[|p| - 2 + 1]);
        assert Edge(pred, r, q);
        PathPrefix(succ, p, s, r, |p| - 2);
        assert Dominates(succ, pred, d, q);
        assert d in p[..|p| - 1];
      }
    }
    forall s, p | Source(pred, s) && Path(succ, p, s, r)
      ensures r in p
    {
      assert p[|p| - 1] == r;
    }
  }

  lemma ExtendPath(g: Rows, p: seq<NodeRef>, a: NodeRef, b: NodeRef, c: NodeRef)
    requires Path(g, p, a, b) && Edge(g, b, c)
    ensures Path(g, p + [c], a, c)
  {
    var p' := p + [c];
    forall i | 0 <= i < |p'| - 1
      ensures Edge(g, p'[i], p'[i + 1])
    {
      if i < |p| - 1 {
        assert Edge(g, p[i], p[i + 1]);
      }
    }
  }

  // ---------------------------------------------------------------- the pass

  /** `order` lists every node once, after all its predecessors. */
  ghost predicate Topological(pred: Rows, order: seq<NodeRef>) {
    && (forall i, j :: 0 <= i < j < |order| ==> order[i] != order[j])
    && (forall x :: x in order <==> x in pred)
    && (forall i, q :: 0 <= i < |order| && Edge(pred, order[i], q) ==> q in order[..i])
  }

  ghost predicate Recorded(succ: Rows, pred: Rows, done: set<NodeRef>, doms: map<NodeRef, set<NodeRef>>) {
    forall d, r :: Edge(doms, d, r) <==> r in done && d in DomSet(succ, pred, r)
  }

  /** Every set that a later node still needs is there. */
  ghost predicate Kept(succ: Rows, pred: Rows, done: set<NodeRef>, outs: seq<Option<set<NodeRef>>>) {
    forall x :: x in done && x in succ && !(succ[x] <= done) ==> x < |outs| && outs[x] == Some(DomSet(succ, pred, x))
  }

  method DominatorPass(succ: Rows, pred: Rows, order: seq<NodeRef>, size: nat)
    returns (doms: map<NodeRef, set<NodeRef>>)
    requires Converse(succ, pred) && Closed(pred) && Topological(pred, order) && forall x :: x in pred ==> x < size
    ensures forall d, r :: Edge(doms, d, r) <==> r in pred && d in pred && Dominates(succ, pred, d, r)
  {
    hide Dominates, Converse, Topological;
    var outs := new Option<set<NodeRef>>[size](_ => None);
    var done: set<NodeRef> := {};
    doms := map[];
    for k := 0 to |order|
      invariant done == set x | x in order[..k]
      invariant Recorded(succ, pred, done, doms) && Kept(succ, pred, done, outs[..])
    {
      var ref := order[k];
      OrderFacts(succ, pred, order, k);
      assert order[..k + 1] == order[..k] + [ref];
      var out := TakeIn(succ, pred, ref, done, outs);
      done := done + {ref};
      outs[ref] := Some(out);
      ghost var before := doms;
      var todo := out;
      while todo != {}
        invariant todo <= out
        invariant forall d, r :: Edge(doms, d, r) <==> Edge(before, d, r) || (r == ref && d in out && d !in todo)
      {
        var dom :| dom in todo;
        ghost var prev := doms;
        doms := doms[dom := Row(doms, dom) + {ref}];
        assert forall d, r :: Edge(doms, d, r) <==> Edge(prev, d, r) || (r == ref && d == dom);
        todo := todo - {dom};
      }
    }
    assert order[..|order|] == order;
    OrderComplete(pred, order);
  }

  lemma OrderFacts(succ: Rows, pred: Rows, order: seq<NodeRef>, k: nat)
    requires Converse(succ, pred) && Topological(pred, order) && k < |order|
    ensures order[k] in pred && order[k] in succ && order[k] !in order[..k]
    ensures forall q :: q in pred[order[k]] ==> q in order[..k] && q in succ && order[k] in succ[q]
  {
    assert order[k] in order;
    forall q | q in pred[order[k]]
      ensures q in order[..k] && q in succ && order[k] in succ[q]
    {
      assert Edge(pred, order[k], q);
      assert Edge(succ, q, order[k]);
    }
  }

  lemma OrderComplete(pred: Rows, order: seq<NodeRef>)
    requires Topological(pred, order)
    ensures forall x :: x in order <==> x in pred
  {
  }

  /** Intersect the predecessors' sets, giving up those that nobody needs any more, and add the node. */
  method TakeIn(succ: Rows, pred: Rows, ref: NodeRef, before: set<NodeRef>, outs: array<Option<set<NodeRef>>>)
    returns (out: set<NodeRef>)
    requires Converse(succ, pred) && ref in pred && ref !in before && ref < outs.Length
    requires forall q :: q in pred[ref] ==> q in before && q in succ && ref in succ[q]
    requires Kept(succ, pred, before, outs[..])
    modifies outs
    ensures out == DomSet(succ, pred, ref)
    ensures Kept(succ, pred, before + {ref}, outs[..][ref := Some(out)])
  {
    hide Dominates, Converse;
    var done := before + {ref};
    var inn: set<NodeRef> := {};
    var todo := pred[ref];
    assert forall q :: q in todo ==> !(succ[q] <= before) && outs[..][q] == outs[q];
    while todo != {}
      invariant todo <= pred[ref]
      invariant forall q :: q in todo ==> q < outs.Length && outs[q] == Some(DomSet(succ, pred, q))
      invariant forall x :: x in before && x in succ && !(succ[x] <= done) ==>
                  x < outs.Length && outs[x] == Some(DomSet(succ, pred, x))
      invariant todo == pred[ref] ==> inn == {}
      invariant todo != pred[ref] ==> inn == Common(succ, pred, pred[ref] - todo)
    {
      var q :| q in todo;
      var predDone := succ[q] <= done;
      assert outs[q].Some?;
      if todo == pred[ref] {
        inn := outs[q].value;
      } else {
        inn := inn * outs[q].value;
      }
      if predDone {
        outs[q] := None;
      }
      assert pred[ref] - (todo - {q}) == pred[ref] - todo + {q};
      todo := todo - {q};
    }
    assert pred[ref] - todo == pred[ref];
    out := inn + {ref};
    if pred[ref] == {} {
      SourceAlone(succ, pred, ref);
    } else {
      DomStep(succ, pred, ref);
    }
  }

  // ---------------------------------------------------------------- from blocks to nodes

  /** Nodes are numbered from 0 along the edges. */
  ghost predicate Numbered(g: Flow, size: nat) {
    && (forall x: nat :: x in g.fwd <==> x < size)
    && (forall a, b :: Edge(g.fwd, a, b) ==> a < b)
  }

  lemma NumberedPath(g: Flow, size: nat, a: NodeRef, b: NodeRef)
    requires Numbered(g, size) && Closed(g.fwd) && a in g.fwd && Reach(g.fwd, a, b)
    ensures a <= b
  {
    if b < a {
      var u, v := Crossing(g.fwd, (iset x | x in g.fwd && a <= x), a, b);
      assert false;
    }
  }

  lemma NumberedPlus(g: Flow, size: nat, a: NodeRef, b: NodeRef)
    requires Numbered(g, size) && Closed(g.fwd) && ReachPlus(g.fwd, a, b)
    ensures a < b
  {
    var s := FirstStep(g.fwd, a, b);
    NumberedPath(g, size, s, b);
  }

  /** Every path from the entry to `r` passes `d`. */
  ghost predicate NodeDominates(g: Flow, d: NodeRef, r: NodeRef) {
    forall p :: Path(g.fwd, p, g.entry, r) ==> d in p
  }

  /** Every path from `r` to where control ends passes `d`. */
  ghost predicate NodePostdominates(g: Flow, d: NodeRef, r: NodeRef) {
    forall p, y :: Source(g.fwd, y) && Path(g.fwd, p, r, y) ==> d in p
  }

  /** A path from a leader passes the leaders of a path of blocks. */
  lemma {:induction false} LeadersOfPath(g: Flow, b: Blocks, p: seq<NodeRef>, x: NodeRef, y: NodeRef)
    returns (q: seq<NodeRef>)
    requires Blocked(g, b) && x in b.blocks && y in g.fwd && Path(g.fwd, p, x, y)
    ensures Path(b.fwd, q, x, b.ref2block[y]) && forall z :: z in q ==> z in p
    decreases |p|
  {
    hide Blocked;
    if |p| == 1 {
      LeaderBlock(g, b, x);
      q := [x];
    } else {
      var u := p[|p| - 2];
      PathPrefix(g.fwd, p, x, y, |p| - 2);
      assert Edge(g.fwd, p[|p| - 2], p[|p| - 2 + 1]);
      assert forall z :: z in p[..|p| - 1] ==> z in p;
      var q' := LeadersOfPath(g, b, p[..|p| - 1], x, u);
      EdgeProjects(g, b, u, y);
      NodeBlocks(g, b, u);
      NodeBlocks(g, b, y);
      if b.ref2block[u] == b.ref2block[y] {
        q := q';
      } else {
        EdgeEntersLeader(g, b, u, y);
        q := q' + [y];
        ExtendPath(b.fwd, q', x, b.ref2block[u], y);
        assert p[|p| - 1] == y;
      }
    }
  }

  lemma NodesClosed(g: Flow, b: Blocks)
    requires Blocked(g, b)
    ensures Closed(g.fwd)
  {
  }

  lemma EdgeEntersLeader(g: Flow, b: Blocks, u: NodeRef, v: NodeRef)
    requires Blocked(g, b) && Edge(g.fwd, u, v) && v in g.fwd && b.ref2block[u] != b.ref2block[v]
    ensures b.ref2block[v] == v
  {
    hide Acyclic, Reach;
    var block := b.blocks[b.ref2block[u]];
    assert IsBlock(g, b.ref2block[u], block);
    var i :| 0 <= i < |block| && block[i] == u;
    assert i < |block| - 1 ==> GluedAt(g, block, i);
    TargetsStay(g, b.blocks, b.ref2block, b.ref2block[u]);
  }

  /** A stretch of a block passes no leader but the block's own. */
  lemma {:induction false} StretchPath(g: Flow, b: Blocks, id: NodeRef, i: nat) returns (p: seq<NodeRef>)
    requires Blocked(g, b) && id in b.blocks && i < |b.blocks[id]|
    ensures Path(g.fwd, p, id, b.blocks[id][i]) && forall z :: z in p && z in b.blocks ==> z == id
    decreases i
  {
    hide FlowGraph, BlockGraph;
    var block := b.blocks[id];
    assert IsBlock(g, id, block);
    if i == 0 {
      p := [id];
    } else {
      var p' := StretchPath(g, b, id, i - 1);
      assert GluedAt(g, block, i - 1);
      p := p' + [block[i]];
      assert Edge(g.fwd, block[i - 1], block[i]);
      ExtendPath(g.fwd, p', id, block[i - 1], block[i]);
      assert !Leader(g, block[i]);
    }
  }

  /** A path of blocks is followed by a path of nodes that passes just their leaders. */
  lemma {:induction false} PathOfLeaders(g: Flow, b: Blocks, q: seq<NodeRef>, x: NodeRef, y: NodeRef)
    returns (p: seq<NodeRef>)
    requires Blocked(g, b) && x in b.blocks && Path(b.fwd, q, x, y)
    ensures Path(g.fwd, p, x, y) && forall z :: z in p && z in b.blocks ==> z in q
    decreases |q|
  {
    hide Blocked;
    if |q| == 1 {
      p := [x];
    } else {
      var u := q[|q| - 2];
      PathPrefix(b.fwd, q, x, y, |q| - 2);
      assert Edge(b.fwd, q[|q| - 2], q[|q| - 2 + 1]);
      assert forall z :: z in q[..|q| - 1] ==> z in q;
      var p' := PathOfLeaders(g, b, q[..|q| - 1], x, u);
      BlockEdgeLifts(g, b, u, y);
      BlockOf(g, b, u);
      var last := LastOf(b.blocks[u]);
      var p'' := StretchPath(g, b, u, |b.blocks[u]| - 1);
      PathAppend(g.fwd, p', p'', x, u, last);
      p := p' + p''[1..] + [y];
      ExtendPath(g.fwd, p' + p''[1..], x, last, y);
      assert q[|q| - 1] == y;
    }
  }

  lemma BlockOf(g: Flow, b: Blocks, u: NodeRef)
    requires Blocked(g, b) && u in b.fwd
    ensures u in b.blocks && |b.blocks[u]| > 0
  {
  }

  /** In the block graph only the entry block has nothing before it. */
  lemma OnlyEntry(g: Flow, s: NodeRef)
    requires FlowGraph(g)
    ensures Source(g.rev, s) <==> s == g.entry
  {
    hide Reach, ReachPlus, Acyclic;
    if s in g.fwd && s != g.entry {
      ReachPlusSplit(g.fwd, g.entry, s);
      var q := LastStep(g.fwd, g.entry, s);
      assert Edge(g.rev, s, q);
    }
    if g.rev[g.entry] != {} {
      var q :| q in g.rev[g.entry];
      assert Edge(g.rev, g.entry, q);
      NothingBefore(g, q);
    }
  }

  lemma NothingBefore(g: Flow, q: NodeRef)
    requires FlowGraph(g)
    ensures !Edge(g.fwd, q, g.entry) && !Edge(g.rev, g.entry, q)
  {
    if Edge(g.fwd, q, g.entry) {
      ReachEdge(g.fwd, q, g.entry);
      ReachPlusTrans(g.fwd, g.entry, q, g.entry);
      assert false;
    }
  }

  lemma BlocksDominate(g: Flow, b: Blocks, d: NodeRef, r: NodeRef)
    requires Blocked(g, b) && d in b.blocks && r in b.blocks
    ensures Dominates(b.fwd, b.rev, d, r) <==> NodeDominates(g, d, r)
  {
    hide Blocked;
    var bg := Flow(b.fwd, b.rev, g.entry);
    BlockFlow(g, b);
    EntryBlock(g, b);
    LeaderBlock(g, b, r);
    OnlyEntry(bg, g.entry);
    if NodeDominates(g, d, r) {
      forall s, q | Source(b.rev, s) && Path(b.fwd, q, s, r)
        ensures d in q
      {
        OnlyEntry(bg, s);
        var p := PathOfLeaders(g, b, q, s, r);
        assert d in p;
      }
    }
    if Dominates(b.fwd, b.rev, d, r) {
      forall p | Path(g.fwd, p, g.entry, r)
        ensures d in p
      {
        var q := LeadersOfPath(g, b, p, g.entry, r);
        assert d in q;
      }
    }
  }

  lemma EntryBlock(g: Flow, b: Blocks)
    requires Blocked(g, b)
    ensures g.entry in b.blocks
  {
    hide Reach, ReachPlus;
    EntryLeads(g);
  }

  lemma ReversedHas<T>(p: seq<T>)
    ensures forall x :: x in Reversed(p) <==> x in p
  {
    ReversedTwice(p);
  }

  lemma BlocksPostdominate(g: Flow, b: Blocks, d: NodeRef, r: NodeRef)
    requires Blocked(g, b) && d in b.blocks && r in b.blocks
    ensures Dominates(b.rev, b.fwd, d, r) <==> NodePostdominates(g, d, r)
  {
    hide Blocked;
    BlockConverse(g, b);
    if NodePostdominates(g, d, r) {
      forall s, q: seq<NodeRef> | Source(b.fwd, s) && Path(b.rev, q, s, r)
        ensures d in q
      {
        ConversePath(b.rev, b.fwd, q, s, r);
        ReversedHas(q);
        var p := PathOfLeaders(g, b, Reversed(q), r, s);
        BlockOf(g, b, s);
        var p' := StretchPath(g, b, s, |b.blocks[s]| - 1);
        SinkBlock(g, b, s);
        PathAppend(g.fwd, p, p', r, s, LastOf(b.blocks[s]));
        assert d in p + p'[1..];
        PathEnds(b.fwd, Reversed(q), r, s);
      }
    }
    if Dominates(b.rev, b.fwd, d, r) {
      forall p, y | Source(g.fwd, y) && Path(g.fwd, p, r, y)
        ensures d in p
      {
        var q := LeadersOfPath(g, b, p, r, y);
        NodeBlocks(g, b, y);
        SinkOf(g, b, y);
        ConversePath(b.fwd, b.rev, q, r, b.ref2block[y]);
        ReversedHas(q);
        assert d in Reversed(q);
      }
    }
  }

  lemma PathEnds(g: Rows, p: seq<NodeRef>, a: NodeRef, b: NodeRef)
    requires Path(g, p, a, b)
    ensures a in p && b in p
  {
    assert p[0] == a && p[|p| - 1] == b;
  }

  lemma BlockConverse(g: Flow, b: Blocks)
    requires Blocked(g, b)
    ensures Converse(b.fwd, b.rev) && Converse(b.rev, b.fwd)
  {
  }

  /** Control ends in a block exactly when it ends at the block's last node. */
  lemma SinkBlock(g: Flow, b: Blocks, s: NodeRef)
    requires Blocked(g, b) && s in b.blocks
    ensures |b.blocks[s]| > 0 && (Source(b.fwd, s) <==> Source(g.fwd, LastOf(b.blocks[s])))
  {
    hide Acyclic, Reach;
    TargetsStay(g, b.blocks, b.ref2block, s);
    if t :| t in g.fwd[LastOf(b.blocks[s])] {
      assert Edge(g.fwd, LastOf(b.blocks[s]), t);
      assert Edge(b.fwd, s, t);
    }
    if t :| t in b.fwd[s] {
      assert Edge(b.fwd, s, t);
    }
  }

  lemma SinkOf(g: Flow, b: Blocks, y: NodeRef)
    requires Blocked(g, b) && Source(g.fwd, y)
    ensures b.ref2block[y] in b.blocks && Source(b.fwd, b.ref2block[y])
  {
    hide Acyclic, Reach;
    var id := b.ref2block[y];
    var block := b.blocks[id];
    assert IsBlock(g, id, block);
    var i :| 0 <= i < |block| && block[i] == y;
    assert i < |block| - 1 ==> GluedAt(g, block, i);
    SinkBlock(g, b, id);
  }

  // ---------------------------------------------------------------- the two instances

  datatype Direction = IN | OUT

  /** The blocks' leaders in increasing or decreasing order. */
  method BlockOrder(dir: Direction, blocks: set<NodeRef>, size: nat) returns (order: seq<NodeRef>)
    requires forall x :: x in blocks ==> x < size
    ensures forall x :: x in order <==> x in blocks
    ensures forall i, j :: 0 <= i < j < |order| ==> if dir == OUT then order[i] < order[j] else order[i] > order[j]
  {
    order := [];
    for k := 0 to size
      invariant forall x: nat :: x in order <==> x in blocks && if dir == OUT then x < k else x >= size - k
      invariant forall i, j :: 0 <= i < j < |order| ==> if dir == OUT then order[i] < order[j] else order[i] > order[j]
    {
      var ref := if dir == OUT then k else size - 1 - k;
      if ref in blocks {
        assert forall i :: 0 <= i < |order| ==> order[i] in order;
        order := order + [ref];
      }
    }
  }

  lemma OrderTopological(g: Flow, b: Blocks, size: nat, dir: Direction, order: seq<NodeRef>)
    requires Blocked(g, b) && Numbered(g, size) && forall x :: x in order <==> x in b.blocks
    requires forall i, j :: 0 <= i < j < |order| ==> if dir == OUT then order[i] < order[j] else order[i] > order[j]
    ensures Topological(if dir == OUT then b.rev else b.fwd, order)
  {
    hide Blocked;
    var pred := if dir == OUT then b.rev else b.fwd;
    BlockKeys(g, b);
    BlockConverse(g, b);
    BlockFlow(g, b);
    forall i, q | 0 <= i < |order| && Edge(pred, order[i], q)
      ensures q in order[..i]
    {
      var u, v := if dir == OUT then q else order[i], if dir == OUT then order[i] else q;
      assert Edge(b.fwd, u, v);
      BlockEdgeLifts(g, b, u, v);
      assert Closed(g.fwd) by {
        NodesClosed(g, b);
      }
      NumberedPlus(g, size, u, v);
      assert q in b.blocks;
      var k :| 0 <= k < |order| && order[k] == q;
      assert k < i;
    }
  }

  /** OUT gives the dominators of every block, IN its postdominators. */
  method ConstructDominators(dir: Direction, g: Flow, size: nat, bcfg: BlockCFG)
    returns (doms: map<NodeRef, set<NodeRef>>)
    requires FlowGraph(g) && Numbered(g, size) && bcfg.g == g && Blocked(g, bcfg.Result())
    ensures forall d, r :: Edge(doms, d, r) <==>
              && d in bcfg.blocks && r in bcfg.blocks
              && if dir == OUT then NodeDominates(g, d, r) else NodePostdominates(g, d, r)
  {
    hide Dominates, NodeDominates, NodePostdominates, Blocked, FlowGraph, Topological;
    var b := bcfg.Result();
    BlockKeys(g, b);
    BlockConverse(g, b);
    BlockBounds(g, b, size);
    var order := BlockOrder(dir, b.blocks.Keys, size);
    OrderTopological(g, b, size, dir, order);
    var succ, pred := if dir == OUT then b.fwd else b.rev, if dir == OUT then b.rev else b.fwd;
    doms := DominatorPass(succ, pred, order, size);
    forall d, r | d in b.blocks && r in b.blocks
      ensures Dominates(succ, pred, d, r) <==> if dir == OUT then NodeDominates(g, d, r) else NodePostdominates(g, d, r)
    {
      BlocksDominate(g, b, d, r);
      BlocksPostdominate(g, b, d, r);
    }
  }

  lemma BlockBounds(g: Flow, b: Blocks, size: nat)
    requires Blocked(g, b) && Numbered(g, size)
    ensures Closed(b.fwd) && Closed(b.rev) && forall x :: x in b.blocks ==> x < size
  {
    hide Blocked;
    BlockFlow(g, b);
    forall x | x in b.blocks
      ensures x < size
    {
      LeaderBlock(g, b, x);
    }
    forall i, j | Edge(b.rev, j, i)
      ensures i in b.rev
    {
      BlockConverse(g, b);
      assert Edge(b.fwd, i, j);
    }
  }

  /** For each block, the blocks it dominates that do not postdominate it. */
  method ExclusiveDominees(g: Flow, bcfg: BlockCFG, dominators: map<NodeRef, set<NodeRef>>,
                           postdominators: map<NodeRef, set<NodeRef>>)
    returns (excl: map<NodeRef, set<NodeRef>>)
    requires forall d, r :: Edge(dominators, d, r) <==> d in bcfg.blocks && r in bcfg.blocks && NodeDominates(g, d, r)
    requires forall d, r :: Edge(postdominators, d, r) <==>
             d in bcfg.blocks && r in bcfg.blocks && NodePostdominates(g, d, r)
    ensures forall d, r :: Edge(excl, d, r) <==>
            d in bcfg.blocks && r in bcfg.blocks && NodeDominates(g, d, r) && !NodePostdominates(g, r, d)
  {
    hide NodeDominates, NodePostdominates;
    excl := map[];
    var todo := dominators.Keys;
    while todo != {}
      invariant todo <= dominators.Keys
      invariant forall d, r :: Edge(excl, d, r) <==> d !in todo && Edge(dominators, d, r) && !Edge(postdominators, r, d)
    {
      var dominator :| dominator in todo;
      var dominees := dominators[dominator];
      ghost var before := excl;
      while dominees != {}
        invariant dominees <= dominators[dominator]
        invariant forall d, r :: Edge(excl, d, r) <==>
                    Edge(before, d, r) ||
                      (d == dominator && r in dominators[dominator] && r !in dominees && !Edge(postdominators, r, d))
      {
        var dominee :| dominee in dominees;
        assert Edge(dominators, dominator, dominee);
        SelfPostdominates(g, dominee);
        assert Edge(postdominators, dominee, dominee);
        if dominator !in postdominators[dominee] {
          ghost var prev := excl;
          excl := excl[dominator := Row(excl, dominator) + {dominee}];
          assert forall d, r :: Edge(excl, d, r) <==> Edge(prev, d, r) || (d == dominator && r == dominee);
        }
        dominees := dominees - {dominee};
      }
      todo := todo - {dominator};
    }
  }

  lemma SelfPostdominates(g: Flow, r: NodeRef)
    ensures NodePostdominates(g, r, r)
  {
    forall p, y | Source(g.fwd, y) && Path(g.fwd, p, r, y)
      ensures r in p
    {
      PathEnds(g.fwd, p, r, y);
    }
  }
}
