/** Basic blocks of a control-flow graph, and the order of its nodes answered from
    the blocks. */
module BlockCfg {
  import opened Digraph
  import opened Binrel

  type NodeRef = nat
  type Rows = map<NodeRef, set<NodeRef>>

  datatype Flow = Flow(fwd: Rows, rev: Rows, entry: NodeRef)

  /** A control-flow graph: acyclic, mirrored, and all of it reachable from the entry. */
  ghost predicate FlowGraph(g: Flow) {
    && Converse(g.fwd, g.rev)
    && Closed(g.fwd)
    && Acyclic(g.fwd)
    && g.entry in g.fwd
    && (forall x :: x in g.fwd ==> Reach(g.fwd, g.entry, x))
  }

  /** Control can leave `a` only for `b` and reach `b` only from `a`. */
  ghost predicate Glued(g: Flow, a: NodeRef, b: NodeRef) {
    a in g.fwd && b in g.rev && g.fwd[a] == {b} && g.rev[b] == {a}
  }

  ghost predicate Leader(g: Flow, x: NodeRef) {
    x in g.fwd && forall a :: !Glued(g, a, x)
  }

  ghost predicate GluedAt(g: Flow, block: seq<NodeRef>, i: nat)
    requires i + 1 < |block|
  {
    Glued(g, block[i], block[i + 1])
  }

  ghost predicate Chain(g: Flow, id: NodeRef, block: seq<NodeRef>) {
    && |block| > 0
    && block[0] == id
    && block[|block| - 1] in g.fwd
    && forall i :: 0 <= i < |block| - 1 ==> GluedAt(g, block, i)
  }

  /** Nothing is glued to `a`. */
  ghost predicate Final(g: Flow, a: NodeRef) {
    forall b :: !Glued(g, a, b)
  }

  /** A basic block: a chain from a leader that cannot be continued. */
  ghost predicate IsBlock(g: Flow, id: NodeRef, block: seq<NodeRef>) {
    && Chain(g, id, block)
    && Leader(g, id)
    && Final(g, LastOf(block))
  }

  ghost predicate AllBlocks(g: Flow, blocks: map<NodeRef, seq<NodeRef>>) {
    forall id :: id in blocks ==> IsBlock(g, id, blocks[id])
  }

  ghost predicate Placed(blocks: map<NodeRef, seq<NodeRef>>, x: NodeRef, id: NodeRef, i: nat) {
    id in blocks && i < |blocks[id]| && blocks[id][i] == x
  }

  function LastOf(block: seq<NodeRef>): NodeRef
    requires |block| > 0
  {
    block[|block| - 1]
  }

  // ---------------------------------------------------------------- leaders

  lemma EntryLeads(g: Flow)
    requires FlowGraph(g)
    ensures Leader(g, g.entry)
  {
    if a :| Glued(g, a, g.entry) {
      assert Edge(g.fwd, a, g.entry);
      ReachEdge(g.fwd, a, g.entry);
      ReachPlusTrans(g.fwd, g.entry, a, g.entry);
      assert false;
    }
  }

  /** Where control goes from a block's last node, a block begins. */
  lemma TargetsLead(g: Flow, a: NodeRef, b: NodeRef)
    requires Converse(g.fwd, g.rev) && Closed(g.fwd) && Edge(g.fwd, a, b) && Final(g, a)
    ensures Leader(g, b)
  {
    assert Edge(g.rev, b, a);
  }

  lemma SingletonOf(s: set<NodeRef>, a: NodeRef)
    requires |s| == 1 && a in s
    ensures s == {a}
  {
    SubsetCard({a}, s);
  }

  // ---------------------------------------------------------------- blocks partition the nodes

  lemma {:induction false} PlaceUnique(g: Flow, blocks: map<NodeRef, seq<NodeRef>>,
                                       x: NodeRef, id: NodeRef, i: nat, id': NodeRef, i': nat)
    requires AllBlocks(g, blocks) && Placed(blocks, x, id, i) && Placed(blocks, x, id', i')
    ensures id == id' && i == i'
    decreases i
  {
    assert IsBlock(g, id, blocks[id]) && IsBlock(g, id', blocks[id']);
    assert i > 0 ==> GluedAt(g, blocks[id], i - 1);
    assert i' > 0 ==> GluedAt(g, blocks[id'], i' - 1);
    if i > 0 {
      assert !Leader(g, x);
      PlaceUnique(g, blocks, blocks[id][i - 1], id, i - 1, id', i' - 1);
    }
  }

  ghost predicate InSomeBlock(blocks: map<NodeRef, seq<NodeRef>>, x: NodeRef) {
    exists id, i: nat :: Placed(blocks, x, id, i)
  }

  /** The blocks found so far lead only to blocks found. */
  ghost predicate Covered(g: Flow, blocks: map<NodeRef, seq<NodeRef>>, extra: seq<NodeRef>) {
    forall id, b :: id in blocks && |blocks[id]| > 0 && Edge(g.fwd, LastOf(blocks[id]), b) ==> b in blocks || b in extra
  }

  lemma StepInBlocks(g: Flow, blocks: map<NodeRef, seq<NodeRef>>, a: NodeRef, b: NodeRef)
    requires AllBlocks(g, blocks) && Covered(g, blocks, []) && InSomeBlock(blocks, a) && Edge(g.fwd, a, b)
    ensures InSomeBlock(blocks, b)
  {
    var id, i: nat :| Placed(blocks, a, id, i);
    var block := blocks[id];
    assert IsBlock(g, id, block);
    if i < |block| - 1 {
      assert GluedAt(g, block, i);
      assert Placed(blocks, b, id, i + 1);
    } else {
      assert b in blocks && IsBlock(g, b, blocks[b]);
      assert Placed(blocks, b, b, 0);
    }
  }

  lemma EveryNodePlaced(g: Flow, blocks: map<NodeRef, seq<NodeRef>>, x: NodeRef)
    requires FlowGraph(g) && AllBlocks(g, blocks) && Covered(g, blocks, []) && g.entry in blocks && x in g.fwd
    ensures InSomeBlock(blocks, x)
  {
    hide FlowGraph;
    assert Reach(g.fwd, g.entry, x) by {
      FromEntry(g, x);
    }
    if !InSomeBlock(blocks, x) {
      assert IsBlock(g, g.entry, blocks[g.entry]);
      assert Placed(blocks, g.entry, g.entry, 0);
      var u, v := Crossing(g.fwd, (iset y | InSomeBlock(blocks, y)), g.entry, x);
      StepInBlocks(g, blocks, u, v);
      assert false;
    }
  }

  lemma FromEntry(g: Flow, x: NodeRef)
    requires FlowGraph(g) && x in g.fwd
    ensures Reach(g.fwd, g.entry, x)
  {
  }

  /** Every node lies in one block, at one place, and the leaders are the blocks' first nodes. */
  ghost predicate Partition(g: Flow, blocks: map<NodeRef, seq<NodeRef>>, ref2block: map<NodeRef, NodeRef>) {
    && AllBlocks(g, blocks)
    && ref2block.Keys == g.fwd.Keys
    && (forall x, id :: x in ref2block ==> (ref2block[x] == id <==> id in blocks && x in blocks[id]))
    && (forall x :: x in blocks <==> Leader(g, x))
  }

  lemma NodesInBlock(g: Flow, id: NodeRef, block: seq<NodeRef>, x: NodeRef)
    requires IsBlock(g, id, block) && x in block
    ensures x in g.fwd
  {
    var i :| 0 <= i < |block| && block[i] == x;
    assert i < |block| - 1 ==> GluedAt(g, block, i);
  }

  lemma PartitionHolds(g: Flow,
                       blocks: map<NodeRef, seq<NodeRef>>, ref2block: map<NodeRef, NodeRef>)
    requires FlowGraph(g) && AllBlocks(g, blocks) && Covered(g, blocks, []) && g.entry in blocks
    requires forall x :: x in ref2block ==> ref2block[x] in blocks && x in blocks[ref2block[x]]
    requires forall id, x :: id in blocks && x in blocks[id] ==> x in ref2block
    ensures Partition(g, blocks, ref2block)
  {
    hide FlowGraph, IsBlock, Covered, Leader;
    forall x
      ensures x in ref2block <==> x in g.fwd
    {
      if x in g.fwd {
        EveryNodePlaced(g, blocks, x);
        var id, i: nat :| Placed(blocks, x, id, i);
        assert x in blocks[id];
      }
      if x in ref2block {
        NodesInBlock(g, ref2block[x], blocks[ref2block[x]], x);
      }
    }
    forall x, id | x in ref2block && id in blocks && x in blocks[id]
      ensures ref2block[x] == id
    {
      BlockUnique(g, blocks, x, id, ref2block[x]);
    }
    forall x
      ensures x in blocks <==> Leader(g, x)
    {
      LeadersLead(g, blocks, x);
    }
  }

  lemma BlockUnique(g: Flow, blocks: map<NodeRef, seq<NodeRef>>, x: NodeRef, id: NodeRef, id': NodeRef)
    requires AllBlocks(g, blocks) && id in blocks && x in blocks[id] && id' in blocks && x in blocks[id']
    ensures id == id'
  {
    hide IsBlock;
    var i: nat :| i < |blocks[id]| && blocks[id][i] == x;
    var j: nat :| j < |blocks[id']| && blocks[id'][j] == x;
    PlaceUnique(g, blocks, x, id, i, id', j);
  }

  lemma LeadersLead(g: Flow, blocks: map<NodeRef, seq<NodeRef>>, x: NodeRef)
    requires FlowGraph(g) && AllBlocks(g, blocks) && Covered(g, blocks, []) && g.entry in blocks
    ensures x in blocks <==> Leader(g, x)
  {
    hide FlowGraph, Covered;
    if Leader(g, x) {
      EveryNodePlaced(g, blocks, x);
      var id, i: nat :| Placed(blocks, x, id, i);
      assert IsBlock(g, id, blocks[id]);
      assert i > 0 ==> GluedAt(g, blocks[id], i - 1);
    }
    if x in blocks {
      assert IsBlock(g, x, blocks[x]);
    }
  }

  // ---------------------------------------------------------------- the block graph

  /** Block edges are the edges from a block's last node to another block's first. */
  ghost predicate BlockGraph(g: Flow, blocks: map<NodeRef, seq<NodeRef>>, bfwd: Rows, brev: Rows)
  {
    && (forall id :: id in blocks ==> |blocks[id]| > 0)
    && bfwd.Keys == blocks.Keys
    && Converse(bfwd, brev)
    && (forall i, j :: Edge(bfwd, i, j) <==> i in blocks && Edge(g.fwd, LastOf(blocks[i]), j))
  }

  ghost predicate RowsOf(g: Flow, blocks: map<NodeRef, seq<NodeRef>>, ref2block: map<NodeRef, NodeRef>, bfwd: Rows,
                         brev: Rows, id: NodeRef) {
    && id in blocks && |blocks[id]| > 0 && LastOf(blocks[id]) in g.fwd && id in g.rev && id in bfwd && id in brev
    && bfwd[id] == Image(ref2block, g.fwd[LastOf(blocks[id])])
    && brev[id] == Image(ref2block, g.rev[id])
  }

  lemma RelHolds(g: Flow,
                 blocks: map<NodeRef, seq<NodeRef>>, ref2block: map<NodeRef, NodeRef>,
                 bfwd: Rows, brev: Rows)
    requires FlowGraph(g) && Partition(g, blocks, ref2block)
    requires bfwd.Keys == blocks.Keys == brev.Keys
    requires forall id :: id in blocks ==> RowsOf(g, blocks, ref2block, bfwd, brev, id)
    ensures BlockGraph(g, blocks, bfwd, brev)
  {
    hide FlowGraph, IsBlock, Partition;
    forall i, j
      ensures Edge(bfwd, i, j) <==> i in blocks && Edge(g.fwd, LastOf(blocks[i]), j)
    {
      if i in blocks {
        TargetsStay(g, blocks, ref2block, i);
      }
    }
    forall i, j
      ensures Edge(brev, j, i) <==> Edge(bfwd, i, j)
    {
      if j in blocks {
        SourcesEnd(g, blocks, ref2block, j);
      }
      if Edge(bfwd, i, j) {
        TargetsStay(g, blocks, ref2block, i);
        LastPlaced(g, blocks, ref2block, i);
        assert Edge(g.fwd, LastOf(blocks[i]), j);
        assert Edge(g.rev, j, LastOf(blocks[i])) by {
          Mirrors(g, LastOf(blocks[i]), j);
        }
      }
    }
  }

  lemma Mirrors(g: Flow, a: NodeRef, b: NodeRef)
    requires FlowGraph(g)
    ensures Edge(g.fwd, a, b) <==> Edge(g.rev, b, a)
  {
  }

  lemma LastPlaced(g: Flow, blocks: map<NodeRef, seq<NodeRef>>, ref2block: map<NodeRef, NodeRef>, i: NodeRef)
    requires Partition(g, blocks, ref2block) && i in blocks
    ensures |blocks[i]| > 0 && LastOf(blocks[i]) in ref2block && ref2block[LastOf(blocks[i])] == i
  {
    assert IsBlock(g, i, blocks[i]);
    assert LastOf(blocks[i]) in blocks[i];
  }

  /** A block's successors are blocks' first nodes. */
  lemma TargetsStay(g: Flow, blocks: map<NodeRef, seq<NodeRef>>, ref2block: map<NodeRef, NodeRef>, i: NodeRef)
    requires FlowGraph(g) && Partition(g, blocks, ref2block) && i in blocks
    ensures |blocks[i]| > 0 && LastOf(blocks[i]) in g.fwd
    ensures forall b :: b in g.fwd[LastOf(blocks[i])] ==> b in blocks && b in ref2block && ref2block[b] == b
  {
    hide Acyclic, Reach;
    assert IsBlock(g, i, blocks[i]);
    forall b | b in g.fwd[LastOf(blocks[i])]
      ensures b in blocks && b in ref2block && ref2block[b] == b
    {
      assert Edge(g.fwd, LastOf(blocks[i]), b);
      TargetsLead(g, LastOf(blocks[i]), b);
      assert IsBlock(g, b, blocks[b]);
      assert blocks[b][0] == b && b in blocks[b];
    }
  }

  function Image(m: map<NodeRef, NodeRef>, s: set<NodeRef>): set<NodeRef> {
    set x | x in s && x in m :: m[x]
  }

  /** Control enters a block from the last nodes of blocks. */
  lemma SourcesEnd(g: Flow, blocks: map<NodeRef, seq<NodeRef>>, ref2block: map<NodeRef, NodeRef>, j: NodeRef)
    requires FlowGraph(g) && Partition(g, blocks, ref2block) && j in blocks
    ensures j in g.rev
    ensures forall a :: a in g.rev[j] ==>
              a in ref2block && ref2block[a] in blocks && |blocks[ref2block[a]]| > 0 &&
                LastOf(blocks[ref2block[a]]) == a && Edge(g.fwd, a, j)
  {
    forall a | a in g.rev[j]
      ensures a in ref2block && ref2block[a] in blocks && |blocks[ref2block[a]]| > 0
      ensures LastOf(blocks[ref2block[a]]) == a && Edge(g.fwd, a, j)
    {
      assert Edge(g.rev, j, a);
      assert Edge(g.fwd, a, j);
      var block := blocks[ref2block[a]];
      assert IsBlock(g, ref2block[a], block);
      var i :| 0 <= i < |block| && block[i] == a;
      assert i < |block| - 1 ==> GluedAt(g, block, i);
    }
  }

  // ---------------------------------------------------------------- reachability by blocks

  /** Everything known of a finished block structure. */
  ghost predicate Blocked(g: Flow, b: Blocks) {
    FlowGraph(g) && Partition(g, b.blocks, b.ref2block) && BlockGraph(g, b.blocks, b.fwd, b.rev)
  }

  datatype Blocks = Blocks(blocks: map<NodeRef, seq<NodeRef>>, ref2block: map<NodeRef, NodeRef>, fwd: Rows, rev: Rows)

  lemma {:induction false} AlongBlock(g: Flow, id: NodeRef, block: seq<NodeRef>, i: nat, j: nat)
    requires IsBlock(g, id, block) && i <= j < |block|
    ensures Reach(g.fwd, block[i], block[j]) && (i < j ==> ReachPlus(g.fwd, block[i], block[j]))
    decreases j - i
  {
    if i == j {
      ReachRefl(g.fwd, block[i]);
    } else {
      AlongBlock(g, id, block, i, j - 1);
      assert GluedAt(g, block, j - 1);
      assert Edge(g.fwd, block[j - 1], block[j]);
      ReachEdge(g.fwd, block[j - 1], block[j]);
      ReachTrans(g.fwd, block[i], block[j - 1], block[j]);
      ReachPlusTrans(g.fwd, block[i], block[j - 1], block[j]);
    }
  }

  /** A node is reached from its block's first node and reaches its last. */
  lemma InBlock(g: Flow, b: Blocks, x: NodeRef)
    requires Blocked(g, b) && x in g.fwd
    ensures var id := b.ref2block[x];
            id in b.blocks && |b.blocks[id]| > 0 && Reach(g.fwd, id, x) && Reach(g.fwd, x, LastOf(b.blocks[id]))
  {
    hide FlowGraph, BlockGraph, Reach, ReachPlus;
    var id := b.ref2block[x];
    var block := b.blocks[id];
    assert IsBlock(g, id, block);
    var i :| 0 <= i < |block| && block[i] == x;
    AlongBlock(g, id, block, 0, i);
    AlongBlock(g, id, block, i, |block| - 1);
  }

  /** An edge of the graph stays in its block or is an edge of the block graph. */
  lemma EdgeProjects(g: Flow, b: Blocks, u: NodeRef, v: NodeRef)
    requires Blocked(g, b) && Edge(g.fwd, u, v)
    ensures v in g.fwd
    ensures b.ref2block[u] == b.ref2block[v] || Edge(b.fwd, b.ref2block[u], b.ref2block[v])
  {
    hide Acyclic, Reach;
    var id := b.ref2block[u];
    var block := b.blocks[id];
    assert IsBlock(g, id, block);
    var i :| 0 <= i < |block| && block[i] == u;
    if i < |block| - 1 {
      assert GluedAt(g, block, i);
      assert v in block;
    } else {
      TargetsStay(g, b.blocks, b.ref2block, id);
    }
  }

  lemma PathProjects(g: Flow, b: Blocks, x: NodeRef, y: NodeRef)
    requires Blocked(g, b) && x in g.fwd && y in g.fwd && Reach(g.fwd, x, y)
    ensures Reach(b.fwd, b.ref2block[x], b.ref2block[y])
  {
    hide FlowGraph, BlockGraph, IsBlock;
    ReachRefl(b.fwd, b.ref2block[x]);
    if !Reach(b.fwd, b.ref2block[x], b.ref2block[y]) {
      var u, v := Crossing(g.fwd, (iset z | z in g.fwd && Reach(b.fwd, b.ref2block[x], b.ref2block[z])), x, y);
      EdgeProjects(g, b, u, v);
      if b.ref2block[u] != b.ref2block[v] {
        ReachEdge(b.fwd, b.ref2block[u], b.ref2block[v]);
        ReachTrans(b.fwd, b.ref2block[x], b.ref2block[u], b.ref2block[v]);
      }
      assert false;
    }
  }

  lemma BlockEdgeLifts(g: Flow, b: Blocks, i: NodeRef, j: NodeRef)
    requires Blocked(g, b) && Edge(b.fwd, i, j)
    ensures i in g.fwd && j in b.blocks && j in g.fwd && b.ref2block[i] == i && b.ref2block[j] == j
    ensures Edge(g.fwd, LastOf(b.blocks[i]), j) && ReachPlus(g.fwd, i, j)
  {
    hide Acyclic, Reach, ReachPlus;
    TargetsStay(g, b.blocks, b.ref2block, i);
    assert Leader(g, i);
    assert IsBlock(g, i, b.blocks[i]);
    assert b.blocks[i][0] in b.blocks[i];
    InBlock(g, b, i);
    ReachEdge(g.fwd, LastOf(b.blocks[i]), j);
    ReachPlusTrans(g.fwd, i, LastOf(b.blocks[i]), j);
  }

  lemma BlockPathLifts(g: Flow, b: Blocks, i: NodeRef, j: NodeRef)
    requires Blocked(g, b) && Reach(b.fwd, i, j)
    ensures Reach(g.fwd, i, j)
  {
    hide Blocked;
    ReachRefl(g.fwd, i);
    if !Reach(g.fwd, i, j) {
      var k, k' := Crossing(b.fwd, (iset k | Reach(g.fwd, i, k)), i, j);
      BlockEdgeLifts(g, b, k, k');
      ReachPlusSplit(g.fwd, k, k');
      ReachTrans(g.fwd, i, k, k');
      assert false;
    }
  }

  /** The block graph is closed, acyclic, and all of it reachable from the entry block. */
  lemma BlockFlow(g: Flow, b: Blocks)
    requires Blocked(g, b)
    ensures FlowGraph(Flow(b.fwd, b.rev, g.entry))
  {
    hide Reach, ReachPlus, IsBlock;
    EntryLeads(g);
    forall i, j | Edge(b.fwd, i, j)
      ensures j in b.fwd
    {
      BlockEdgeLifts(g, b, i, j);
    }
    forall i
      ensures !ReachPlus(b.fwd, i, i)
    {
      if ReachPlus(b.fwd, i, i) {
        var s := FirstStep(b.fwd, i, i);
        BlockEdgeLifts(g, b, i, s);
        BlockPathLifts(g, b, s, i);
        ReachPlusTrans(g.fwd, i, s, i);
        assert false;
      }
    }
    forall id | id in b.fwd
      ensures Reach(b.fwd, g.entry, id)
    {
      LeaderBlock(g, b, id);
      LeaderBlock(g, b, g.entry);
      PathProjects(g, b, g.entry, id);
    }
  }

  lemma LeaderBlock(g: Flow, b: Blocks, id: NodeRef)
    requires Blocked(g, b) && id in b.blocks
    ensures id in g.fwd && b.ref2block[id] == id
  {
    hide FlowGraph, BlockGraph;
    assert IsBlock(g, id, b.blocks[id]);
    assert b.blocks[id][0] in b.blocks[id];
  }

  /** The position of `x` in `block`, or the block's length. */
  function IndexOf(block: seq<NodeRef>, x: NodeRef): (i: nat)
    ensures i <= |block| && (x in block ==> i < |block| && block[i] == x)
    ensures x !in block[..i]
  {
    if block == [] then 0
    else if block[0] == x then 0
    else
      var r := IndexOf(block[1..], x);
      assert block[..r + 1] == [block[0]] + block[1..][..r];
      r + 1
  }

  /** Nodes of one block are ordered by position, nodes of different blocks by their blocks. */
  lemma OrderByBlocks(g: Flow, b: Blocks, x: NodeRef, y: NodeRef)
    requires Blocked(g, b) && x in g.fwd && y in g.fwd
    ensures var i, j := b.ref2block[x], b.ref2block[y];
            ReachPlus(g.fwd, x, y) <==>
            if i == j then IndexOf(b.blocks[i], x) < IndexOf(b.blocks[i], y) else ReachPlus(b.fwd, i, j)
  {
    hide Reach, ReachPlus, BlockGraph, IsBlock;
    var i, j := b.ref2block[x], b.ref2block[y];
    InBlock(g, b, x);
    InBlock(g, b, y);
    ReachPlusSplit(g.fwd, x, y);
    if i == j {
      var block := b.blocks[i];
      var p, q := IndexOf(block, x), IndexOf(block, y);
      assert IsBlock(g, i, block);
      if p < q {
        AlongBlock(g, i, block, p, q);
      } else {
        AlongBlock(g, i, block, q, p);
        if ReachPlus(g.fwd, x, y) {
          ReachPlusTrans(g.fwd, x, y, x);
          assert false;
        }
      }
    } else {
      if ReachPlus(g.fwd, x, y) {
        PathProjects(g, b, x, y);
        ReachPlusSplit(b.fwd, i, j);
      }
      if ReachPlus(b.fwd, i, j) {
        var s := FirstStep(b.fwd, i, j);
        BlockEdgeLifts(g, b, i, s);
        BlockPathLifts(g, b, s, j);
        ReachEdge(g.fwd, LastOf(b.blocks[i]), s);
        ReachPlusTrans(g.fwd, x, LastOf(b.blocks[i]), s);
        ReachTrans(g.fwd, s, j, y);
        ReachPlusTrans(g.fwd, x, s, y);
      }
    }
  }

  // ---------------------------------------------------------------- construction

  /** The exits are the blocks that control does not leave. */
  ghost predicate ExitsOk(g: Flow, blocks: map<NodeRef, seq<NodeRef>>, exits: set<NodeRef>) {
    forall id :: id in exits <==> id in blocks && NoWayOn(g, blocks[id])
  }

  ghost predicate NoWayOn(g: Flow, block: seq<NodeRef>) {
    |block| > 0 && LastOf(block) in g.fwd && g.fwd[LastOf(block)] == {}
  }

  class BlockCFG {
    const g: Flow
    var blocks: map<NodeRef, seq<NodeRef>>
    var ref2block: map<NodeRef, NodeRef>
    var exits: set<NodeRef>
    var fwd: Rows
    var rev: Rows

    function Result(): Blocks
      reads this
    {
      Blocks(blocks, ref2block, fwd, rev)
    }

    constructor (g: Flow)
      requires FlowGraph(g)
      ensures this.g == g && Blocked(g, Result())
      ensures ExitsOk(g, blocks, exits)
    {
      hide FlowGraph, Partition, BlockGraph, AllBlocks, Covered, ExitsOk;
      this.g := g;
      blocks, ref2block, exits, fwd, rev := map[], map[], {}, map[], map[];
      new;
      FindBlocks();
      PlaceNodes();
      PartitionHolds(g, blocks, ref2block);
      ConstructRel();
      RelHolds(g, blocks, ref2block, fwd, rev);
    }

    /** Follow the worklist of leaders from the entry. */
    method FindBlocks()
      requires FlowGraph(g) && blocks == map[] && exits == {}
      modifies this`blocks, this`exits
      ensures AllBlocks(g, blocks) && Covered(g, blocks, []) && g.entry in blocks && ExitsOk(g, blocks, exits)
    {
      hide FlowGraph, Found;
      FoundNone(g);
      var todo := [g.entry];
      var done: set<NodeRef> := {};
      while todo != []
        invariant done == blocks.Keys && Found(g, blocks, exits, todo)
        decreases |g.fwd.Keys - done|, |todo|
      {
        var cur := todo[|todo| - 1];
        FoundNext(g, blocks, exits, todo, cur);
        todo := todo[..|todo| - 1];
        if cur !in done {
          Fewer(g.fwd.Keys, done, cur);
          done := done + {cur};
          ghost var exits0 := exits;
          var block, targets := ConstructBlock(cur);
          FoundMore(g, blocks, exits0, todo, cur, block, targets);
          todo := todo + targets;
          blocks := blocks[cur := block];
        }
      }
      FoundAll(g, blocks, exits);
    }

    /** The chain from a leader, and where control goes from its end. */
    method ConstructBlock(id: NodeRef) returns (block: seq<NodeRef>, targets: seq<NodeRef>)
      requires FlowGraph(g) && Leader(g, id)
      modifies this`exits
      ensures IsBlock(g, id, block)
      ensures (forall x :: x in targets ==> Leader(g, x)) && LeadsTo(g, block, targets)
      ensures exits == if NoWayOn(g, block) then old(exits) + {id} else old(exits)
    {
      hide Leader;
      var cur := id;
      block := [];
      LeaderIn(g, id);
      while true
        invariant exits == old(exits) && cur in g.fwd && Chain(g, id, block + [cur])
        decreases |g.fwd.Keys| + 1 - |Ancestors(g.fwd, cur)|
      {
        block := block + [cur];
        var succs := g.fwd[cur];
        if succs == {} {
          exits := exits + {id};
          targets := [];
          return;
        } else if |succs| != 1 {
          targets := Listed(succs);
          TargetsAll(g, cur, targets);
          return;
        }
        var next :| next in succs;
        SingletonOf(succs, next);
        RowExists(g, cur, next);
        if |g.rev[next]| != 1 {
          targets := [next];
          TargetsAll(g, cur, targets);
          return;
        }
        SingletonOf(g.rev[next], cur);
        ChainMore(g, id, block, next);
        AncestorsGrow(g.fwd, cur, next);
        SubsetCard(Ancestors(g.fwd, next), g.fwd.Keys);
        cur := next;
      }
    }

    /** Which block each node is in. */
    method PlaceNodes()
      requires ref2block == map[]
      modifies this`ref2block
      ensures forall x :: x in ref2block ==> ref2block[x] in blocks && x in blocks[ref2block[x]]
      ensures forall id, x :: id in blocks && x in blocks[id] ==> x in ref2block
    {
      var todo := blocks.Keys;
      while todo != {}
        invariant todo <= blocks.Keys
        invariant forall x :: x in ref2block ==> ref2block[x] in blocks && x in blocks[ref2block[x]]
        invariant forall id, x :: id in blocks && id !in todo && x in blocks[id] ==> x in ref2block
      {
        var id :| id in todo;
        for i := 0 to |blocks[id]|
          invariant forall x :: x in ref2block ==> ref2block[x] in blocks && x in blocks[ref2block[x]]
          invariant forall id, x :: id in blocks && id !in todo && x in blocks[id] ==> x in ref2block
          invariant forall k :: 0 <= k < i ==> blocks[id][k] in ref2block
        {
          if blocks[id][i] !in ref2block {
            ref2block := ref2block[blocks[id][i] := id];
          }
        }
        todo := todo - {id};
      }
    }

    /** Both directions of the block relation, from the blocks' ends and beginnings. */
    method ConstructRel()
      requires FlowGraph(g) && Partition(g, blocks, ref2block) && fwd == map[] && rev == map[]
      modifies this`fwd, this`rev
      ensures fwd.Keys == blocks.Keys == rev.Keys
      ensures forall id :: id in blocks ==> RowsOf(g, blocks, ref2block, fwd, rev, id)
    {
      hide FlowGraph, Partition, Image;
      var todo := blocks.Keys;
      while todo != {}
        invariant todo <= blocks.Keys && fwd.Keys == blocks.Keys - todo == rev.Keys
        invariant forall id :: id in blocks && id !in todo ==> RowsOf(g, blocks, ref2block, fwd, rev, id)
      {
        var first :| first in todo;
        TargetsStay(g, blocks, ref2block, first);
        SourcesEnd(g, blocks, ref2block, first);
        fwd := fwd[first := Image(ref2block, g.fwd[LastOf(blocks[first])])];
        rev := rev[first := Image(ref2block, g.rev[first])];
        todo := todo - {first};
      }
    }
  }

  lemma LeaderIn(g: Flow, id: NodeRef)
    requires Leader(g, id)
    ensures Chain(g, id, [] + [id]) && id in g.fwd
  {
  }

  lemma ChainMore(g: Flow, id: NodeRef, block: seq<NodeRef>, next: NodeRef)
    requires FlowGraph(g) && Chain(g, id, block) && Glued(g, LastOf(block), next)
    ensures Chain(g, id, block + [next])
  {
    hide Acyclic, Reach;
    var more := block + [next];
    assert Edge(g.fwd, LastOf(block), next);
    forall i | 0 <= i < |more| - 1
      ensures GluedAt(g, more, i)
    {
      if i < |block| - 1 {
        assert GluedAt(g, block, i);
      }
    }
  }

  lemma RowExists(g: Flow, a: NodeRef, b: NodeRef)
    requires FlowGraph(g) && a in g.fwd && b in g.fwd[a]
    ensures Edge(g.fwd, a, b) && b in g.fwd && b in g.rev && a in g.rev[b]
  {
    assert Edge(g.fwd, a, b) && Edge(g.rev, b, a);
  }

  lemma TargetsAll(g: Flow, last: NodeRef, targets: seq<NodeRef>)
    requires FlowGraph(g) && last in g.fwd && Final(g, last)
    requires forall x :: x in targets <==> x in g.fwd[last]
    ensures forall x :: x in targets ==> Leader(g, x)
    ensures forall b :: Edge(g.fwd, last, b) ==> b in targets
  {
    forall x | x in targets
      ensures Leader(g, x)
    {
      assert Edge(g.fwd, last, x);
      TargetsLead(g, last, x);
    }
  }

  lemma Fewer(all: set<NodeRef>, done: set<NodeRef>, cur: NodeRef)
    requires cur in all && cur !in done
    ensures |all - (done + {cur})| < |all - done|
  {
    assert all - (done + {cur}) == (all - done) - {cur};
  }

  ghost predicate LeadsTo(g: Flow, block: seq<NodeRef>, targets: seq<NodeRef>) {
    |block| > 0 && forall b :: Edge(g.fwd, LastOf(block), b) ==> b in targets
  }

  /** What holds between the rounds of the worklist. */
  ghost predicate Found(g: Flow, blocks: map<NodeRef, seq<NodeRef>>, exits: set<NodeRef>, todo: seq<NodeRef>) {
    && AllBlocks(g, blocks)
    && ExitsOk(g, blocks, exits)
    && (forall x :: x in todo ==> Leader(g, x))
    && Covered(g, blocks, todo)
    && (g.entry in blocks || g.entry in todo)
  }

  lemma FoundNone(g: Flow)
    requires FlowGraph(g)
    ensures Found(g, map[], {}, [g.entry])
  {
    hide FlowGraph, Leader;
    EntryLeads(g);
  }

  lemma FoundNext(g: Flow, blocks: map<NodeRef, seq<NodeRef>>, exits: set<NodeRef>, todo: seq<NodeRef>, cur: NodeRef)
    requires Found(g, blocks, exits, todo) && todo != [] && cur == todo[|todo| - 1]
    ensures Leader(g, cur) && cur in g.fwd
    ensures cur in blocks ==> Found(g, blocks, exits, todo[..|todo| - 1])
    ensures Found(g, blocks, exits, todo[..|todo| - 1] + [cur])
  {
    hide IsBlock, ExitsOk;
    assert todo == todo[..|todo| - 1] + [cur];
  }

  lemma FoundMore(g: Flow, blocks: map<NodeRef, seq<NodeRef>>, exits: set<NodeRef>, todo: seq<NodeRef>, cur: NodeRef,
                  block: seq<NodeRef>, targets: seq<NodeRef>)
    requires Found(g, blocks, exits, todo + [cur]) && cur !in blocks
    requires IsBlock(g, cur, block) && LeadsTo(g, block, targets) && forall x :: x in targets ==> Leader(g, x)
    ensures Found(g, blocks[cur := block], if NoWayOn(g, block) then exits + {cur} else exits, todo + targets)
  {
    hide IsBlock, NoWayOn, Leader;
  }

  lemma FoundAll(g: Flow, blocks: map<NodeRef, seq<NodeRef>>, exits: set<NodeRef>)
    requires Found(g, blocks, exits, [])
    ensures AllBlocks(g, blocks) && Covered(g, blocks, []) && g.entry in blocks && ExitsOk(g, blocks, exits)
  {
  }

  // ---------------------------------------------------------------- the order

  lemma AncestorsStep(g: Flow, x: NodeRef)
    requires FlowGraph(g) && x in g.rev
    ensures Ancestors(g.fwd, x) == set p, y | p in g.rev[x] && y in Ancestors(g.fwd, p) + {p} :: y
  {
    hide Acyclic, Reach, ReachPlus;
    var union := set p, y | p in g.rev[x] && y in Ancestors(g.fwd, p) + {p} :: y;
    forall y | y in Ancestors(g.fwd, x)
      ensures y in union
    {
      var p := LastStep(g.fwd, y, x);
      assert Edge(g.rev, x, p);
      ReachPlusSplit(g.fwd, y, p);
      assert y in Ancestors(g.fwd, p) + {p};
    }
    forall y | y in union
      ensures y in Ancestors(g.fwd, x)
    {
      var p :| p in g.rev[x] && y in Ancestors(g.fwd, p) + {p};
      assert Edge(g.rev, x, p);
      assert Edge(g.fwd, p, x);
      ReachEdge(g.fwd, p, x);
      if y != p {
        ReachPlusSplit(g.fwd, p, x);
        ReachPlusTrans(g.fwd, y, p, x);
      }
    }
  }

  /** In reverse postorder a node's predecessors come before it. */
  lemma PredsEarlier(g: Flow, order: seq<NodeRef>, i: nat, p: NodeRef)
    requires FlowGraph(g) && SuccessorsFirst(g.fwd, Reversed(order)) && i < |order| && order[i] in g.rev
    requires p in g.rev[order[i]]
    requires forall x :: x in order <==> Reach(g.fwd, g.entry, x)
    ensures p in order[..i]
  {
    hide Acyclic, Reach;
    var post, n := Reversed(order), |order|;
    assert Edge(g.rev, order[i], p);
    assert Edge(g.fwd, p, order[i]);
    assert p in order;
    var k :| 0 <= k < n && order[k] == p;
    assert post[n - 1 - k] == p;
    assert order[i] in post[..n - 1 - k];
    var m :| 0 <= m < n - 1 - k && post[m] == order[i];
    assert post[n - 1 - i] == order[i];
    assert m == n - 1 - i;
    assert p in order[..i];
  }

  class CFGOrder {
    const g: Flow
    const bcfg: BlockCFG
    var preds: map<NodeRef, set<NodeRef>>

    ghost predicate Valid()
      reads this, bcfg
    {
      && bcfg.g == g
      && Blocked(g, bcfg.Result())
      && preds.Keys == bcfg.blocks.Keys
      && (forall id :: id in preds ==> preds[id] == Ancestors(bcfg.fwd, id))
    }

    constructor (g: Flow)
      requires FlowGraph(g)
      ensures this.g == g && Valid()
    {
      hide FlowGraph, Partition, BlockGraph, SuccessorsFirst, Ancestors;
      this.g := g;
      bcfg := new BlockCFG(g);
      preds := map[];
      new;
      BlockFlow(g, bcfg.Result());
      var bg := Flow(bcfg.fwd, bcfg.rev, g.entry);
      FlowFacts(bg);
      BlockKeys(g, bcfg.Result());
      var rel := new Relation<NodeRef>();
      rel.fwd, rel.rev := bcfg.fwd, bcfg.rev;
      var order := rel.ReversePostorder(g.entry);
      var ins, outs := Summaries(bg, order);
      preds := ins;
    }

    /** `a` comes before `b`: answered from the blocks. */
    predicate Less(a: NodeRef, b: NodeRef)
      requires Valid() && a in g.fwd && b in g.fwd
      reads this, bcfg
    {
      NodeBlocks(g, bcfg.Result(), a);
      NodeBlocks(g, bcfg.Result(), b);
      var i, j := bcfg.ref2block[a], bcfg.ref2block[b];
      if i == j then IndexOf(bcfg.blocks[i], a) < IndexOf(bcfg.blocks[i], b) else i in preds[j]
    }
  }

  lemma NodeBlocks(g: Flow, b: Blocks, x: NodeRef)
    requires Blocked(g, b) && x in g.fwd
    ensures x in b.ref2block && b.ref2block[x] in b.blocks
  {
    hide FlowGraph, BlockGraph;
  }

  /** The order is exactly that of non-empty paths. */
  lemma LessIffPath(o: CFGOrder, a: NodeRef, b: NodeRef)
    requires o.Valid() && a in o.g.fwd && b in o.g.fwd
    ensures o.Less(a, b) <==> ReachPlus(o.g.fwd, a, b)
  {
    hide Blocked, Ancestors, ReachPlus;
    var r := o.bcfg.Result();
    NodeBlocks(o.g, r, a);
    NodeBlocks(o.g, r, b);
    OrderByBlocks(o.g, r, a, b);
    PredsAnswer(o.g, r, r.ref2block[a], r.ref2block[b]);
  }

  lemma FlowFacts(g: Flow)
    requires FlowGraph(g)
    ensures Closed(g.fwd) && Acyclic(g.fwd) && g.entry in g.fwd && forall x :: x in g.fwd <==> Reach(g.fwd, g.entry, x)
  {
    forall x | Reach(g.fwd, g.entry, x)
      ensures x in g.fwd
    {
      ReachPlusSplit(g.fwd, g.entry, x);
      if x != g.entry {
        var s := LastStep(g.fwd, g.entry, x);
      }
    }
  }

  lemma BlockKeys(g: Flow, b: Blocks)
    requires Blocked(g, b)
    ensures b.fwd.Keys == b.blocks.Keys == b.rev.Keys
  {
  }

  lemma PredsAnswer(g: Flow, b: Blocks, i: NodeRef, j: NodeRef)
    requires Blocked(g, b)
    ensures i in Ancestors(b.fwd, j) <==> ReachPlus(b.fwd, i, j)
  {
    if ReachPlus(b.fwd, i, j) {
      var s := FirstStep(b.fwd, i, j);
    }
  }

  /** The blocks before each block, and those with the block itself. */
  method Summaries(g: Flow, order: seq<NodeRef>)
    returns (ins: map<NodeRef, set<NodeRef>>, outs: map<NodeRef, set<NodeRef>>)
    requires FlowGraph(g) && SuccessorsFirst(g.fwd, Reversed(order))
    requires forall x :: x in order <==> Reach(g.fwd, g.entry, x)
    ensures ins.Keys == g.fwd.Keys && forall x :: x in ins ==> ins[x] == Ancestors(g.fwd, x)
  {
    hide FlowGraph, SuccessorsFirst, Ancestors, Reach;
    FlowFacts(g);
    ins, outs := map[], map[];
    for i := 0 to |order|
      invariant ins.Keys == outs.Keys == set x | x in order[..i]
      invariant forall x :: x in ins ==> ins[x] == Ancestors(g.fwd, x) && outs[x] == ins[x] + {x}
    {
      var ref := order[i];
      assert order[..i + 1] == order[..i] + [ref];
      assert ref in order;
      RowKeys(g);
      forall p | p in g.rev[ref]
        ensures p in outs
      {
        PredsEarlier(g, order, i, p);
      }
      var todo := g.rev[ref];
      var acc: set<NodeRef> := {};
      while todo != {}
        invariant todo <= g.rev[ref]
        invariant acc == set p, y | p in g.rev[ref] - todo && y in Ancestors(g.fwd, p) + {p} :: y
      {
        var pred :| pred in todo;
        acc := acc + outs[pred];
        todo := todo - {pred};
      }
      assert g.rev[ref] - todo == g.rev[ref];
      AncestorsStep(g, ref);
      ins := ins[ref := acc];
      outs := outs[ref := acc + {ref}];
    }
    assert order[..|order|] == order;
  }

  lemma RowKeys(g: Flow)
    requires FlowGraph(g)
    ensures g.fwd.Keys == g.rev.Keys
  {
  }
}
