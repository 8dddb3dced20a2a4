/** The unroller: lays out a function instruction by instruction, inlines calls up
    to the recursive call limit, copies every loop body once per permitted
    iteration, cuts each copy's edges back to its header and leads them to the
    next copy. */
module Unroll {
  import opened Digraph
  import opened Program
  import opened UnrollSpec
  import opened UnrollParts

  type NodeRef = nat

  /** The graph's entry and exit, or an instruction with the function and loop identifiers of its copy. */
  datatype Node = Entry | Exit | Inst(fn: FuncName, block: Block, idx: nat, func: seq<nat>, loop: seq<nat>)

  /** Where control enters a laid-out part, and the nodes it leaves from, by block. */
  datatype Port = Port(entry: NodeRef, exits: set<(Block, NodeRef)>)

  /** `a` is the last instruction of block `b`. */
  ghost predicate Ends(cx: Config, p: Addr, a: Addr, b: Block) {
    |a| == |p| + 1 && a[|p|].block == b && FrameOk(cx, a[|p|]) && AtEnd(cx, a[|p|])
  }

  /** Some function returns from `b`. */
  ghost predicate IsExitBlock(cx: Config, b: Block) {
    exists g :: g in cx.prog && b in ExitBlocks(cx.prog[g])
  }

  /** Block names belong to one function, so a block with successors is not one from which another function returns. */
  lemma GoesOn(cx: Config, f: FuncName, b: Block)
    requires ConfigOk(cx) && f in cx.prog && b in cx.prog[f].code && b !in ExitBlocks(cx.prog[f])
    ensures !IsExitBlock(cx, b)
  {
    forall g | g in cx.prog
      ensures b !in ExitBlocks(cx.prog[g])
    {
      assert Reducible(cx.prog[g]);
    }
  }

  /** For the blocks of `need` the exits are the nodes where these blocks end. Exits
      kept under other names are those of calls inlined at the end of a block. */
  ghost predicate ExitsOk(cx: Config, addr: seq<Addr>, lo: nat, hi: nat, p: Addr, exits: set<(Block, NodeRef)>,
                          need: set<Block>)
    requires hi <= |addr|
  {
    && (forall x :: x in exits ==> lo <= x.1 < hi && (x.0 in need ==> Ends(cx, p, addr[x.1], x.0)))
    && (forall r: nat, b :: lo <= r < hi && b in need && Ends(cx, p, addr[r], b) ==> (b, r) in exits)
  }

  /** The exits of a block: its end, or where the call inlined there returns. */
  ghost predicate BlockExitsOk(cx: Config, addr: seq<Addr>, lo: nat, hi: nat, p: Addr, f: FuncName, b: Block,
                               exits: set<(Block, NodeRef)>)
    requires hi <= |addr| && f in cx.prog
  {
    && ExitsOk(cx, addr, lo, hi, p, exits, {b})
    && (forall x :: x in exits ==> x.0 == b || (b !in ExitBlocks(cx.prog[f]) && IsExitBlock(cx, x.0)))
  }

  ghost predicate EntryOk(cx: Config, addr: seq<Addr>, lo: nat, hi: nat, p: Addr, fr: Frame, entry: NodeRef)
    requires hi <= |addr| && ConfigOk(cx)
  {
    lo <= entry < hi && FrameOk(cx, fr) && addr[entry] == Enter(cx, p, fr)
  }

  lemma LaidOutKept(cx: Config, addr: seq<Addr>, addr': seq<Addr>, fwd: map<nat, set<nat>>, fwd': map<nat, set<nat>>,
                    lo: nat, hi: nat, p: Addr, f: FuncName, v: View, iters: seq<nat>)
    requires ConfigOk(cx) && LaidOut(cx, addr, fwd, lo, hi, p, f, v, iters)
    requires addr <= addr'
    requires forall r: nat :: lo <= r < hi ==> r in fwd && r in fwd' && fwd'[r] == fwd[r]
    ensures LaidOut(cx, addr', fwd', lo, hi, p, f, v, iters)
  {
    hide InPart, StepIn;
    assert forall r :: lo <= r < hi ==> addr'[r] == addr[r];
    assert forall r: nat, s: nat :: lo <= r < hi ==> (Edge(fwd', r, s) <==> Edge(fwd, r, s));
    forall a | InPart(cx, p, f, v, iters, a)
      ensures Has(addr', lo, hi, a)
    {
      assert Has(addr, lo, hi, a);
      var r :| lo <= r < hi && addr[r] == a;
      assert addr'[r] == a;
    }
  }

  lemma EmptyPart(cx: Config, addr: seq<Addr>, fwd: map<nat, set<nat>>, p: Addr, f: FuncName, v: View, iters: seq<nat>)
    requires ConfigOk(cx) && f in cx.prog
    requires match v
      case Chain(b, n) => n == 0 || !Live(cx, f, b)
      case Parts(l, m, done) => m == 0 && done == {}
      case Rounds(l, n) => n == 0
      case _ => false
    ensures LaidOut(cx, addr, fwd, |addr|, |addr|, p, f, v, iters)
  {
  }

  lemma DeadBlock(cx: Config, addr: seq<Addr>, fwd: map<nat, set<nat>>, p: Addr, f: FuncName, b: Block, iters: seq<nat>)
    requires ConfigOk(cx) && f in cx.prog && b in cx.prog[f].code && !Live(cx, f, b)
    ensures LaidOut(cx, addr, fwd, |addr|, |addr|, p, f, Chain(b, |cx.prog[f].code[b]|), iters)
    ensures BlockExitsOk(cx, addr, |addr|, |addr|, p, f, b, {})
  {
    EmptyPart(cx, addr, fwd, p, f, Chain(b, |cx.prog[f].code[b]|), iters);
  }

  lemma PlainPart(cx: Config, addr: seq<Addr>, fwd: map<nat, set<nat>>, r: nat, p: Addr, fr: Frame)
    requires ConfigOk(cx) && AllFramesOk(cx, p) && FrameOk(cx, fr) && !Inlined(cx, p, fr)
    requires r < |addr| && addr[r] == p + [fr] && r in fwd && fwd[r] == {}
    ensures LaidOut(cx, addr, fwd, r, r + 1, p, fr.fn, OneInstr(fr.block, fr.idx), fr.iters)
    ensures Leaves(cx, p, addr[r])
  {
    var a := addr[r];
    assert a[..|a| - 1] == p;
    forall x: Addr | InPart(cx, p, fr.fn, OneInstr(fr.block, fr.idx), fr.iters, x)
      ensures x == a
    {
      assert x[|p|].iters == fr.iters;
      assert x[|p|] == fr;
      assert |x| > |p| + 1 ==> CalledAt(cx, x, |p| + 1);
    }
    assert fr.iters[|fr.iters|..] == [];
    assert InPart(cx, p, fr.fn, OneInstr(fr.block, fr.idx), fr.iters, a);
  }

  /** Control leaves an inlined call exactly from the ends of the callee's exit blocks. */
  lemma LeavesCall(cx: Config, p: Addr, fr: Frame, a: Addr)
    requires ConfigOk(cx) && AllFramesOk(cx, p) && FrameOk(cx, fr) && Inlined(cx, p, fr)
    requires InPart(cx, p + [fr], Callee(cx, fr), Body(cx.prog[Callee(cx, fr)].root), [], a)
    ensures Leaves(cx, p, a) <==> |a| == |p| + 2 && AtExit(cx, a[|p| + 1])
  {
  }

  // ---------------------------------------------------------------- identifiers

  /** The innermost loop of `l` around `b`, or `l` itself. */
  ghost function InnermostLoop(l: Loop, b: Block): Loop
    decreases l
  {
    var i := SubIndex(l.subs, b);
    if i >= 0 then InnermostLoop(l.subs[i], b) else l
  }

  /** One copy of a loop body: the callers, the loop, and the iterations of it and the loops around it. */
  datatype Copy = Outside | InCopy(callers: Addr, fn: FuncName, l: Loop, iters: seq<nat>)

  /** The innermost copy around a position; a function called from a loop is inside that loop. */
  ghost function CopyOf(cx: Config, a: Addr): Copy {
    if a == [] then Outside
    else
      var p, fr := a[..|a| - 1], a[|a| - 1];
      if fr.iters == [] || fr.fn !in cx.prog then CopyOf(cx, p)
      else InCopy(p, fr.fn, InnermostLoop(cx.prog[fr.fn].root, fr.block), fr.iters)
  }

  /** How many loops are around a position, those around its callers included. */
  ghost function Depth(a: Addr): nat {
    if a == [] then 0 else Depth(a[..|a| - 1]) + |a[|a| - 1].iters|
  }

  ghost function CopyDepth(c: Copy): nat {
    if c.Outside? then 0 else Depth(c.callers) + |c.iters|
  }

  /** Where an activation with these callers begins. */
  ghost function FirstOf(cx: Config, q: Addr): Addr {
    if ConfigOk(cx) && q != [] && FrameOk(cx, q[|q| - 1]) && Inlined(cx, q[..|q| - 1], q[|q| - 1]) then
      var g := Callee(cx, q[|q| - 1]);
      StartOk(cx, g);
      Enter(cx, q, StartOf(cx, g))
    else []
  }

  /** Where a copy of a loop body begins. */
  ghost function HeaderOf(cx: Config, c: Copy): Addr {
    if ConfigOk(cx) && c.InCopy? && FrameOk(cx, HeaderFrame(c.fn, c.l, c.iters)) then
      Enter(cx, c.callers, HeaderFrame(c.fn, c.l, c.iters))
    else []
  }

  /** `node` carries the instruction at `a`'s top frame, and identifiers of `a`'s activation and loop copy. */
  ghost predicate Stands(cx: Config, activation: map<seq<nat>, Addr>, copies: map<seq<nat>, Copy>, node: Node,
                         a: Addr) {
    if !node.Inst? then a == []
    else
      && |a| > 0
      && node.func in activation
      && activation[node.func] == a[..|a| - 1]
      && node.loop in copies
      && copies[node.loop] == CopyOf(cx, a)
      && node.fn == a[|a| - 1].fn && node.block == a[|a| - 1].block && node.idx == a[|a| - 1].idx
  }

  lemma StandsStill(cx: Config, activation: map<seq<nat>, Addr>, copies: map<seq<nat>, Copy>,
                    activation': map<seq<nat>, Addr>, copies': map<seq<nat>, Copy>, node: Node, a: Addr)
    requires Stands(cx, activation, copies, node, a)
    requires forall id :: id in activation ==> id in activation' && activation'[id] == activation[id]
    requires forall id :: id in copies ==> id in copies' && copies'[id] == copies[id]
    ensures Stands(cx, activation', copies', node, a)
  {
  }

  lemma AllStandStill(cx: Config, activation: map<seq<nat>, Addr>, copies: map<seq<nat>, Copy>,
                      activation': map<seq<nat>, Addr>, copies': map<seq<nat>, Copy>, nodes: seq<Node>, addr: seq<Addr>)
    requires |addr| == |nodes| && forall r :: 0 <= r < |nodes| ==> Stands(cx, activation, copies, nodes[r], addr[r])
    requires forall id :: id in activation ==> id in activation' && activation'[id] == activation[id]
    requires forall id :: id in copies ==> id in copies' && copies'[id] == copies[id]
    ensures forall r :: 0 <= r < |nodes| ==> Stands(cx, activation', copies', nodes[r], addr[r])
  {
    hide Stands;
    forall r | 0 <= r < |nodes|
      ensures Stands(cx, activation', copies', nodes[r], addr[r])
    {
      StandsStill(cx, activation, copies, activation', copies', nodes[r], addr[r]);
    }
  }

  /** A node at position `a` bears the function identifier `id` or one that extends it. */
  ghost predicate SeenFunc(nodes: seq<Node>, addr: seq<Addr>, id: seq<nat>, a: Addr) {
    exists r: nat :: r < |nodes| && r < |addr| && nodes[r].Inst? && id <= nodes[r].func && addr[r] == a
  }

  ghost predicate SeenLoop(nodes: seq<Node>, addr: seq<Addr>, id: seq<nat>, a: Addr) {
    exists r: nat :: r < |nodes| && r < |addr| && nodes[r].Inst? && id <= nodes[r].loop && addr[r] == a
  }

  lemma StillSeen(nodes: seq<Node>, addr: seq<Addr>, nodes': seq<Node>, addr': seq<Addr>, id: seq<nat>, a: Addr)
    requires nodes <= nodes' && addr <= addr'
    ensures SeenFunc(nodes, addr, id, a) ==> SeenFunc(nodes', addr', id, a)
    ensures SeenLoop(nodes, addr, id, a) ==> SeenLoop(nodes', addr', id, a)
  {
    if r: nat :| r < |nodes| && r < |addr| && nodes[r].Inst? && id <= nodes[r].func && addr[r] == a {
      assert nodes'[r] == nodes[r] && addr'[r] == addr[r];
    }
    if r: nat :| r < |nodes| && r < |addr| && nodes[r].Inst? && id <= nodes[r].loop && addr[r] == a {
      assert nodes'[r] == nodes[r] && addr'[r] == addr[r];
    }
  }

  /** Every function identifier in use is as long as its activation has callers, and belongs to an activation
      that is being laid out or has left its first node. */
  ghost predicate FuncsOk(cx: Config, nodes: seq<Node>, addr: seq<Addr>, activation: map<seq<nat>, Addr>,
                          idFunc: seq<nat>, nextFunc: nat)
  {
    && idFunc in activation
    && (forall id :: id in activation ==> |id| == |activation[id]| && forall i :: 0 <= i < |id| ==> id[i] < nextFunc)
    && (forall id :: id in activation ==> id <= idFunc || SeenFunc(nodes, addr, id, FirstOf(cx, activation[id])))
  }

  /** The same for the loop identifiers and the copies of loop bodies. */
  ghost predicate LoopsOk(cx: Config, nodes: seq<Node>, addr: seq<Addr>, copies: map<seq<nat>, Copy>, idLoop: seq<nat>,
                          nextLoop: nat)
  {
    && idLoop in copies
    && (forall id :: id in copies ==> |id| == CopyDepth(copies[id]) && forall i :: 0 <= i < |id| ==> id[i] < nextLoop)
    && (forall id :: id in copies ==> id <= idLoop || SeenLoop(nodes, addr, id, HeaderOf(cx, copies[id])))
  }

  lemma IdsGrow(cx: Config, nodes: seq<Node>, addr: seq<Addr>, nodes': seq<Node>, addr': seq<Addr>,
                activation: map<seq<nat>, Addr>, idFunc: seq<nat>, nextFunc: nat,
                copies: map<seq<nat>, Copy>, idLoop: seq<nat>, nextLoop: nat)
    requires nodes <= nodes' && addr <= addr'
    requires FuncsOk(cx, nodes, addr, activation, idFunc, nextFunc)
    requires LoopsOk(cx, nodes, addr, copies, idLoop, nextLoop)
    ensures FuncsOk(cx, nodes', addr', activation, idFunc, nextFunc)
    ensures LoopsOk(cx, nodes', addr', copies, idLoop, nextLoop)
  {
    hide SeenFunc, SeenLoop, FirstOf, HeaderOf, CopyDepth;
    forall id | id in activation
      ensures id <= idFunc || SeenFunc(nodes', addr', id, FirstOf(cx, activation[id]))
    {
      StillSeen(nodes, addr, nodes', addr', id, FirstOf(cx, activation[id]));
    }
    forall id | id in copies
      ensures id <= idLoop || SeenLoop(nodes', addr', id, HeaderOf(cx, copies[id]))
    {
      StillSeen(nodes, addr, nodes', addr', id, HeaderOf(cx, copies[id]));
    }
  }

  /** An identifier that extends the current one by an unused number is new. */
  lemma FuncBegun(cx: Config, nodes: seq<Node>, addr: seq<Addr>, activation: map<seq<nat>, Addr>, idFunc: seq<nat>,
                  nextFunc: nat, q: Addr)
    requires FuncsOk(cx, nodes, addr, activation, idFunc, nextFunc) && |q| == |idFunc| + 1
    ensures var id := idFunc + [nextFunc];
            id !in activation && FuncsOk(cx, nodes, addr, activation[id := q], id, nextFunc + 1)
  {
    hide SeenFunc, FirstOf;
    assert (idFunc + [nextFunc])[|idFunc|] == nextFunc;
  }

  lemma LoopBegun(cx: Config, nodes: seq<Node>, addr: seq<Addr>, copies: map<seq<nat>, Copy>, idLoop: seq<nat>,
                  nextLoop: nat, c: Copy)
    requires LoopsOk(cx, nodes, addr, copies, idLoop, nextLoop) && CopyDepth(c) == |idLoop| + 1
    ensures var id := idLoop + [nextLoop];
            id !in copies && LoopsOk(cx, nodes, addr, copies[id := c], id, nextLoop + 1)
  {
    hide SeenLoop, HeaderOf, CopyDepth;
    assert (idLoop + [nextLoop])[|idLoop|] == nextLoop;
  }

  lemma ShorterPrefix(id: seq<nat>, now: seq<nat>)
    requires |now| > 0 && id <= now && id != now
    ensures id <= now[..|now| - 1]
  {
  }

  lemma FuncEnded(cx: Config, nodes: seq<Node>, addr: seq<Addr>, activation: map<seq<nat>, Addr>, idFunc: seq<nat>,
                  nextFunc: nat)
    requires FuncsOk(cx, nodes, addr, activation, idFunc, nextFunc) && |idFunc| > 0
    requires idFunc[..|idFunc| - 1] in activation && SeenFunc(nodes, addr, idFunc, FirstOf(cx, activation[idFunc]))
    ensures FuncsOk(cx, nodes, addr, activation, idFunc[..|idFunc| - 1], nextFunc)
  {
    hide SeenFunc, FirstOf;
    forall id | id in activation && id <= idFunc && id != idFunc
      ensures id <= idFunc[..|idFunc| - 1]
    {
      ShorterPrefix(id, idFunc);
    }
  }

  lemma LoopEnded(cx: Config, nodes: seq<Node>, addr: seq<Addr>, copies: map<seq<nat>, Copy>, idLoop: seq<nat>,
                  nextLoop: nat)
    requires LoopsOk(cx, nodes, addr, copies, idLoop, nextLoop) && |idLoop| > 0
    requires idLoop[..|idLoop| - 1] in copies && SeenLoop(nodes, addr, idLoop, HeaderOf(cx, copies[idLoop]))
    ensures LoopsOk(cx, nodes, addr, copies, idLoop[..|idLoop| - 1], nextLoop)
  {
    hide SeenLoop, HeaderOf, CopyDepth;
    forall id | id in copies && id <= idLoop && id != idLoop
      ensures id <= idLoop[..|idLoop| - 1]
    {
      ShorterPrefix(id, idLoop);
    }
  }

  /** The copy in which blocks of `l` outside its subloops are laid out. */
  ghost function CopyIn(cx: Config, p: Addr, f: FuncName, l: Loop, iters: seq<nat>): Copy {
    if iters == [] then CopyOf(cx, p) else InCopy(p, f, l, iters)
  }

  /** The loops around a block of `l`, seen from the function's outermost loop, are those seen from `l`. */
  ghost predicate Around(fn: Function, l: Loop) {
    forall b :: b in l.blocks ==> InnermostLoop(fn.root, b) == InnermostLoop(l, b)
  }

  /** The current loop identifier is that of `l`'s copy. */
  ghost predicate Placed(cx: Config, copies: map<seq<nat>, Copy>, idLoop: seq<nat>, p: Addr, f: FuncName, l: Loop,
                         iters: seq<nat>) {
    && f in cx.prog && Around(cx.prog[f], l)
    && idLoop in copies && copies[idLoop] == CopyIn(cx, p, f, l, iters)
    && |idLoop| == Depth(p) + |iters|
  }

  lemma PlacedStill(cx: Config, copies: map<seq<nat>, Copy>, copies': map<seq<nat>, Copy>, idLoop: seq<nat>, p: Addr,
                    f: FuncName, l: Loop, iters: seq<nat>)
    requires Placed(cx, copies, idLoop, p, f, l, iters)
    requires forall id :: id in copies ==> id in copies' && copies'[id] == copies[id]
    ensures Placed(cx, copies', idLoop, p, f, l, iters)
  {
  }

  lemma NewCopy(cx: Config, copies: map<seq<nat>, Copy>, idLoop: seq<nat>, next: nat, p: Addr, f: FuncName, outer: Loop,
                l: Loop, iters: seq<nat>, m: nat)
    requires Placed(cx, copies, idLoop, p, f, outer, iters) && Around(cx.prog[f], l)
    ensures var c, id := InCopy(p, f, l, iters + [m]), idLoop + [next];
            CopyDepth(c) == |idLoop| + 1 && Placed(cx, copies[id := c], id, p, f, l, iters + [m])
  {
  }

  /** An instruction, and what it calls, is in the copy of the loop around its block. */
  lemma PlacedInside(cx: Config, copies: map<seq<nat>, Copy>, idLoop: seq<nat>, p: Addr, f: FuncName, l: Loop,
                     iters: seq<nat>, fr: Frame)
    requires Placed(cx, copies, idLoop, p, f, l, iters) && fr.fn == f && fr.iters == iters && fr.block in PlainBlocks(l)
    ensures copies[idLoop] == CopyOf(cx, p + [fr]) && |idLoop| == Depth(p + [fr])
  {
    assert (p + [fr])[..|p + [fr]| - 1] == p;
  }

  lemma PlacedCallee(cx: Config, copies: map<seq<nat>, Copy>, idLoop: seq<nat>, q: Addr, g: FuncName)
    requires g in cx.prog && idLoop in copies && copies[idLoop] == CopyOf(cx, q) && |idLoop| == Depth(q)
    ensures Placed(cx, copies, idLoop, q, g, cx.prog[g].root, [])
  {
  }

  lemma AroundSub(cx: Config, f: FuncName, l: Loop, i: nat)
    requires LoopOf(cx, f, l) && Around(cx.prog[f], l) && i < |l.subs|
    ensures Around(cx.prog[f], l.subs[i])
  {
    SubOk(cx, f, l, i);
    forall b | b in l.subs[i].blocks
      ensures InnermostLoop(cx.prog[f].root, b) == InnermostLoop(l.subs[i], b)
    {
      assert b in l.blocks && SubIndex(l.subs, b) == i;
    }
  }

  ghost function Callers(a: Addr): Addr {
    if a == [] then [] else a[..|a| - 1]
  }

  /** The node's instruction is the one at the position, and its identifiers are as long as the stack and the
      loops around it are deep. */
  ghost predicate Labelled(node: Node, a: Addr) {
    && node.Inst? && |a| > 0
    && node.fn == a[|a| - 1].fn && node.block == a[|a| - 1].block && node.idx == a[|a| - 1].idx
    && |node.func| == |a| - 1 && |node.loop| == Depth(a)
  }

  /** Function identifiers tell activations apart, and loop identifiers copies of loop bodies. */
  ghost predicate ToldApart(cx: Config, n: Node, a: Addr, n': Node, a': Addr) {
    n.Inst? && n'.Inst? ==>
      && (n.func == n'.func <==> Callers(a) == Callers(a'))
      && (n.loop == n'.loop <==> CopyOf(cx, a) == CopyOf(cx, a'))
  }

  lemma {:induction false} CopyOfDepth(cx: Config, a: Addr)
    requires forall i :: 0 <= i < |a| ==> a[i].fn in cx.prog
    ensures CopyDepth(CopyOf(cx, a)) == Depth(a)
    decreases |a|
  {
    if a != [] {
      CopyOfDepth(cx, a[..|a| - 1]);
    }
  }

  ghost predicate OnePlaceEach(nodes: seq<Node>, addr: seq<Addr>) {
    forall r: nat, t: nat ::
      && r < |nodes| && t < |nodes| && r < |addr| && t < |addr|
      && nodes[r].Inst? && nodes[t].Inst? && addr[r] == addr[t]
      ==> r == t
  }

  /** Identifiers of equal length with the same first node are equal. */
  lemma OneFunc(nodes: seq<Node>, addr: seq<Addr>, id: seq<nat>, id': seq<nat>, a: Addr)
    requires |id| == |id'| && SeenFunc(nodes, addr, id, a) && SeenFunc(nodes, addr, id', a)
    requires OnePlaceEach(nodes, addr)
    ensures id == id'
  {
    var r: nat :| r < |nodes| && r < |addr| && nodes[r].Inst? && id <= nodes[r].func && addr[r] == a;
    var t: nat :| t < |nodes| && t < |addr| && nodes[t].Inst? && id' <= nodes[t].func && addr[t] == a;
    assert id == nodes[r].func[..|id|] == id';
  }

  lemma OneLoop(nodes: seq<Node>, addr: seq<Addr>, id: seq<nat>, id': seq<nat>, a: Addr)
    requires |id| == |id'| && SeenLoop(nodes, addr, id, a) && SeenLoop(nodes, addr, id', a)
    requires OnePlaceEach(nodes, addr)
    ensures id == id'
  {
    var r: nat :| r < |nodes| && r < |addr| && nodes[r].Inst? && id <= nodes[r].loop && addr[r] == a;
    var t: nat :| t < |nodes| && t < |addr| && nodes[t].Inst? && id' <= nodes[t].loop && addr[t] == a;
    assert id == nodes[r].loop[..|id|] == id';
  }

  /** When nothing is being laid out any more, the identifiers tell activations and copies apart. */
  lemma AllToldApart(cx: Config, nodes: seq<Node>, addr: seq<Addr>, activation: map<seq<nat>, Addr>, nextFunc: nat,
                     copies: map<seq<nat>, Copy>, nextLoop: nat, r: nat, t: nat)
    requires FuncsOk(cx, nodes, addr, activation, [], nextFunc) && LoopsOk(cx, nodes, addr, copies, [], nextLoop)
    requires |addr| == |nodes| && r < |nodes| && t < |nodes|
    requires Stands(cx, activation, copies, nodes[r], addr[r]) && Stands(cx, activation, copies, nodes[t], addr[t])
    requires OnePlaceEach(nodes, addr)
    ensures ToldApart(cx, nodes[r], addr[r], nodes[t], addr[t])
  {
    hide SeenFunc, SeenLoop, FirstOf, HeaderOf, CopyDepth, CopyOf;
    if nodes[r].Inst? && nodes[t].Inst? {
      var f, f', l, l' := nodes[r].func, nodes[t].func, nodes[r].loop, nodes[t].loop;
      if activation[f] == activation[f'] && f != [] {
        OneFunc(nodes, addr, f, f', FirstOf(cx, activation[f]));
      }
      if copies[l] == copies[l'] && l != [] {
        OneLoop(nodes, addr, l, l', HeaderOf(cx, copies[l]));
      }
    }
  }

  function ExitBlocks(fn: Function): set<Block> {
    set b | b in fn.succs && fn.succs[b] == {}
  }

  lemma RootFacts(cx: Config, f: FuncName)
    requires ConfigOk(cx) && f in cx.prog
    ensures LoopOf(cx, f, cx.prog[f].root)
    ensures ExitSet(cx, f, cx.prog[f].root, ExitBlocks(cx.prog[f]))
    ensures HeaderFrame(f, cx.prog[f].root, []) == StartOf(cx, f)
  {
    assert Reducible(cx.prog[f]);
    var rank :| WellFormed(cx.prog[f], rank);
    var root := cx.prog[f].root;
    forall b | b in ExitBlocks(cx.prog[f])
      ensures SubIndex(root.subs, b) < 0
    {
      var i := SubIndex(root.subs, b);
      assert i >= 0 ==> IsLoop(cx.prog[f], root.subs[i]);
    }
  }

  /** An inlined activation, laid out, is the call instruction laid out. */
  lemma CallPart(cx: Config, addr: seq<Addr>, fwd: map<nat, set<nat>>, lo: nat, hi: nat, p: Addr, fr: Frame, port: Port)
    requires ConfigOk(cx) && AllFramesOk(cx, p) && FrameOk(cx, fr) && Inlined(cx, p, fr)
    requires LaidOut(cx, addr, fwd, lo, hi, p + [fr], Callee(cx, fr), Body(cx.prog[Callee(cx, fr)].root), [])
    requires EntryOk(cx, addr, lo, hi, p + [fr], StartOf(cx, Callee(cx, fr)), port.entry)
    requires ExitsOk(cx, addr, lo, hi, p + [fr], port.exits, ExitBlocks(cx.prog[Callee(cx, fr)]))
    requires forall x :: x in port.exits ==> x.0 in ExitBlocks(cx.prog[Callee(cx, fr)])
    ensures LaidOut(cx, addr, fwd, lo, hi, p, fr.fn, OneInstr(fr.block, fr.idx), fr.iters)
    ensures EntryOk(cx, addr, lo, hi, p, fr, port.entry)
    ensures forall x :: x in port.exits ==> lo <= x.1 < hi
    ensures forall r: nat :: lo <= r < hi ==> (Leaves(cx, p, addr[r]) <==> exists x :: x in port.exits && x.1 == r)
  {
    CallLaidOut(cx, addr, fwd, lo, hi, p, fr);
    forall r: nat | lo <= r < hi
      ensures Leaves(cx, p, addr[r]) <==> exists x :: x in port.exits && x.1 == r
    {
      CallExits(cx, addr, lo, hi, p, fr, port, r);
    }
  }

  lemma CallLaidOut(cx: Config, addr: seq<Addr>, fwd: map<nat, set<nat>>, lo: nat, hi: nat, p: Addr, fr: Frame)
    requires ConfigOk(cx) && AllFramesOk(cx, p) && FrameOk(cx, fr) && Inlined(cx, p, fr)
    requires LaidOut(cx, addr, fwd, lo, hi, p + [fr], Callee(cx, fr), Body(cx.prog[Callee(cx, fr)].root), [])
    ensures LaidOut(cx, addr, fwd, lo, hi, p, fr.fn, OneInstr(fr.block, fr.idx), fr.iters)
  {
    hide InPart, StepIn, ConfigOk;
    var one, body := OneInstr(fr.block, fr.idx), Body(cx.prog[Callee(cx, fr)].root);
    forall a: Addr
      ensures InPart(cx, p, fr.fn, one, fr.iters, a) <==> InPart(cx, p + [fr], Callee(cx, fr), body, [], a)
    {
      InlinedPart(cx, p, fr, a, a);
    }
    forall r: nat, s: nat | lo <= r < hi
      ensures Edge(fwd, r, s) <==> lo <= s < hi && StepIn(cx, p, one, fr.iters, addr[r], addr[s])
    {
      if lo <= s < hi {
        InlinedPart(cx, p, fr, addr[r], addr[s]);
      }
    }
    forall a: Addr | InPart(cx, p, fr.fn, one, fr.iters, a)
      ensures Has(addr, lo, hi, a)
    {
      assert InPart(cx, p + [fr], Callee(cx, fr), body, [], a);
    }
  }

  lemma CallExits(cx: Config, addr: seq<Addr>, lo: nat, hi: nat, p: Addr, fr: Frame, port: Port, r: nat)
    requires ConfigOk(cx) && AllFramesOk(cx, p) && FrameOk(cx, fr) && Inlined(cx, p, fr)
    requires hi <= |addr| && lo <= r < hi
    requires InPart(cx, p + [fr], Callee(cx, fr), Body(cx.prog[Callee(cx, fr)].root), [], addr[r])
    requires ExitsOk(cx, addr, lo, hi, p + [fr], port.exits, ExitBlocks(cx.prog[Callee(cx, fr)]))
    requires forall x :: x in port.exits ==> x.0 in ExitBlocks(cx.prog[Callee(cx, fr)])
    ensures Leaves(cx, p, addr[r]) <==> exists x :: x in port.exits && x.1 == r
  {
    var a := addr[r];
    LeavesCall(cx, p, fr, a);
    if Leaves(cx, p, a) {
      var b := a[|p| + 1].block;
      assert Ends(cx, p + [fr], a, b);
      assert (b, r) in port.exits && (b, r).1 == r;
    }
    if x :| x in port.exits && x.1 == r {
      assert Ends(cx, p + [fr], a, x.0);
    }
  }

  /** `refs` are the nodes from which control leaves instruction `j` of the block. */
  ghost predicate LeaveRefs(cx: Config, addr: seq<Addr>, lo: nat, hi: nat, p: Addr, j: nat, refs: set<NodeRef>)
    requires hi <= |addr|
  {
    forall r: nat :: r in refs <==> lo <= r < hi && |addr[r]| > |p| && addr[r][|p|].idx == j && Leaves(cx, p, addr[r])
  }

  lemma ChainAdded(cx: Config, addr: seq<Addr>, lo: nat, hi: nat, p: Addr, f: FuncName, b: Block, j: nat,
                   iters: seq<nat>, refs: set<NodeRef>, entry: NodeRef, links: set<(NodeRef, NodeRef)>)
    requires ConfigOk(cx) && Covers(cx, addr, lo, hi, p, f, Gap(b, j), iters)
    requires EntryOk(cx, addr, lo, hi, p, Frame(f, b, j, iters), entry)
    requires j > 0 && LeaveRefs(cx, addr, lo, hi, p, j - 1, refs)
    requires forall e :: e in links <==> e.0 in refs && e.1 == entry
    ensures AddedBy(cx, addr, lo, hi, p, Chain(b, j + 1), iters, Gap(b, j), iters, links)
  {
    forall r: nat, s: nat | lo <= r < hi && lo <= s < hi
      ensures StepIn(cx, p, Chain(b, j + 1), iters, addr[r], addr[s]) <==>
              StepIn(cx, p, Gap(b, j), iters, addr[r], addr[s]) || (r, s) in links
    {
      ChainAddedOne(cx, addr, lo, hi, p, f, b, j, iters, refs, entry, links, r, s);
    }
  }

  lemma ChainAddedOne(cx: Config, addr: seq<Addr>, lo: nat, hi: nat, p: Addr, f: FuncName, b: Block, j: nat,
                      iters: seq<nat>, refs: set<NodeRef>, entry: NodeRef, links: set<(NodeRef, NodeRef)>, r: nat,
                      s: nat)
    requires ConfigOk(cx) && Covers(cx, addr, lo, hi, p, f, Gap(b, j), iters)
    requires EntryOk(cx, addr, lo, hi, p, Frame(f, b, j, iters), entry)
    requires j > 0 && LeaveRefs(cx, addr, lo, hi, p, j - 1, refs)
    requires forall e :: e in links <==> e.0 in refs && e.1 == entry
    requires lo <= r < hi && lo <= s < hi
    ensures StepIn(cx, p, Chain(b, j + 1), iters, addr[r], addr[s]) <==>
            StepIn(cx, p, Gap(b, j), iters, addr[r], addr[s]) || (r, s) in links
  {
    hide StepIn, ConfigOk, Enter, Live, Inlined;
    assert InPart(cx, p, f, Gap(b, j), iters, addr[r]);
    ChainLinks(cx, p, f, b, j, iters, addr[r], addr[s]);
    assert addr[s] == Enter(cx, p, Frame(f, b, j, iters)) <==> s == entry;
    if addr[r][|p|].idx == j - 1 {
      assert !AtExit(cx, addr[r][|p|]);
      assert Leaves(cx, p, addr[r]) <==> Pivot(cx, addr[r]) == |p|;
    }
  }

  lemma ChainGrows(cx: Config, addr0: seq<Addr>, addr: seq<Addr>, fwd0: map<nat, set<nat>>, fwd1: map<nat, set<nat>>,
                   fwd: map<nat, set<nat>>, lo: nat, mid: nat, hi: nat, p: Addr, f: FuncName, b: Block, j: nat,
                   iters: seq<nat>, refs: set<NodeRef>, entry: NodeRef, links: set<(NodeRef, NodeRef)>)
    requires ConfigOk(cx) && AllFramesOk(cx, p) && f in cx.prog && addr0 <= addr
    requires LaidOut(cx, addr0, fwd0, lo, mid, p, f, Chain(b, j), iters) && mid == |addr0|
    requires forall r: nat :: r < mid ==> r in fwd0 && r in fwd1 && fwd1[r] == fwd0[r]
    requires LaidOut(cx, addr, fwd1, mid, hi, p, f, OneInstr(b, j), iters) && hi == |addr|
    requires EntryOk(cx, addr, mid, hi, p, Frame(f, b, j, iters), entry)
    requires j > 0 ==> LeaveRefs(cx, addr0, lo, mid, p, j - 1, refs)
    requires forall e :: e in links <==> j > 0 && e.0 in refs && e.1 == entry
    requires forall r: nat, s: nat :: Edge(fwd, r, s) <==> Edge(fwd1, r, s) || (r, s) in links
    ensures LaidOut(cx, addr, fwd, lo, hi, p, f, Chain(b, j + 1), iters)
  {
    hide InPart, StepIn, ConfigOk, Enter;
    LaidOutKept(cx, addr0, addr, fwd0, fwd1, lo, mid, p, f, Chain(b, j), iters);
    GapSplits(cx, f, b, j, iters);
    Merge(cx, addr, fwd1, lo, mid, hi, p, f, Gap(b, j), iters, Chain(b, j), iters, OneInstr(b, j), iters);
    if j > 0 {
      ChainRefs(cx, addr0, addr, fwd1, lo, mid, hi, p, f, b, j, iters, refs);
      ChainAdded(cx, addr, lo, hi, p, f, b, j, iters, refs, entry, links);
    } else {
      ChainFirst(cx, addr, lo, hi, p, f, b, iters);
    }
    Relink(cx, addr, fwd1, fwd, lo, hi, p, f, Chain(b, j + 1), iters, Gap(b, j), iters, links);
  }

  lemma ChainFirst(cx: Config, addr: seq<Addr>, lo: nat, hi: nat, p: Addr, f: FuncName, b: Block, iters: seq<nat>)
    requires ConfigOk(cx) && Covers(cx, addr, lo, hi, p, f, Gap(b, 0), iters)
    ensures AddedBy(cx, addr, lo, hi, p, Chain(b, 1), iters, Gap(b, 0), iters, {})
  {
    forall r: nat, s: nat | lo <= r < hi && lo <= s < hi
      ensures StepIn(cx, p, Chain(b, 1), iters, addr[r], addr[s]) <==> StepIn(cx, p, Gap(b, 0), iters, addr[r], addr[s])
    {
      ChainLinks(cx, p, f, b, 0, iters, addr[r], addr[s]);
    }
  }

  lemma ChainRefs(cx: Config, addr0: seq<Addr>, addr: seq<Addr>, fwd: map<nat, set<nat>>, lo: nat, mid: nat, hi: nat,
                  p: Addr, f: FuncName, b: Block, j: nat, iters: seq<nat>, refs: set<NodeRef>)
    requires ConfigOk(cx) && addr0 <= addr && mid == |addr0| && hi == |addr|
    requires LaidOut(cx, addr, fwd, mid, hi, p, f, OneInstr(b, j), iters)
    requires j > 0 && LeaveRefs(cx, addr0, lo, mid, p, j - 1, refs)
    ensures LeaveRefs(cx, addr, lo, hi, p, j - 1, refs)
  {
    assert forall r: nat :: r < mid ==> addr[r] == addr0[r];
    forall r: nat | mid <= r < hi
      ensures |addr[r]| > |p| && addr[r][|p|].idx == j
    {
      assert InPart(cx, p, f, OneInstr(b, j), iters, addr[r]);
    }
  }

  lemma OutEdgesKept(fwd: map<nat, set<nat>>, fwd': map<nat, set<nat>>, links: set<(NodeRef, NodeRef)>, lo: nat)
    requires forall r: nat, s: nat :: Edge(fwd', r, s) <==> Edge(fwd, r, s) || (r, s) in links
    requires forall e :: e in links ==> e.0 >= lo
    requires forall r: nat :: r < lo ==> r in fwd && r in fwd'
    ensures forall r: nat :: r < lo ==> r in fwd && r in fwd' && fwd'[r] == fwd[r]
  {
    forall r: nat | r < lo
      ensures fwd'[r] == fwd[r]
    {
      assert forall s: nat :: (s in fwd'[r] <==> Edge(fwd', r, s)) && (s in fwd[r] <==> Edge(fwd, r, s));
      assert forall s: nat :: (r, s) !in links;
    }
  }

  lemma InstrRefs(cx: Config, addr: seq<Addr>, fwd: map<nat, set<nat>>, fwd1: map<nat, set<nat>>, lo: nat, mid: nat,
                  hi: nat, p: Addr, f: FuncName, b: Block, j: nat, iters: seq<nat>, exits: set<(Block, NodeRef)>)
    requires ConfigOk(cx) && lo <= mid
    requires LaidOut(cx, addr, fwd, lo, mid, p, f, Chain(b, j), iters)
    requires LaidOut(cx, addr, fwd1, mid, hi, p, f, OneInstr(b, j), iters)
    requires forall x :: x in exits ==> mid <= x.1 < hi
    requires forall r: nat :: mid <= r < hi ==> (Leaves(cx, p, addr[r]) <==> exists x :: x in exits && x.1 == r)
    ensures LeaveRefs(cx, addr, lo, hi, p, j, set x | x in exits :: x.1)
  {
    forall r: nat | mid <= r < hi
      ensures |addr[r]| > |p| && addr[r][|p|].idx == j
    {
      assert InPart(cx, p, f, OneInstr(b, j), iters, addr[r]);
    }
    forall r: nat | lo <= r < mid
      ensures |addr[r]| > |p| && addr[r][|p|].idx < j
    {
      assert InPart(cx, p, f, Chain(b, j), iters, addr[r]);
    }
  }

  lemma ChainEnds(cx: Config, addr: seq<Addr>, lo: nat, hi: nat, p: Addr, f: FuncName, b: Block, n: nat,
                  iters: seq<nat>, entry: NodeRef)
    requires f in cx.prog && b in cx.prog[f].code && n == |cx.prog[f].code[b]| > 0
    requires Covers(cx, addr, lo, hi, p, f, Chain(b, n), iters)
    requires lo <= entry < hi && addr[entry] == p + [Frame(f, b, n - 1, iters)]
    ensures BlockExitsOk(cx, addr, lo, hi, p, f, b, {(b, entry)})
  {
    assert InPart(cx, p, f, Chain(b, n), iters, addr[entry]);
    forall r: nat | lo <= r < hi && Ends(cx, p, addr[r], b)
      ensures r == entry
    {
      assert InPart(cx, p, f, Chain(b, n), iters, addr[r]);
      assert addr[r][|p|].iters == iters;
      assert addr[r] == addr[r][..|p|] + [addr[r][|p|]];
    }
  }

  function ExitingBlocks(fn: Function, s: Loop): set<Block> {
    set b | b in s.blocks && Exiting(fn, s, b)
  }

  /** A subloop's port: entered at its header in iteration 0, left from its exiting blocks. */
  ghost predicate LoopPortOk(cx: Config, addr: seq<Addr>, lo: nat, hi: nat, p: Addr, f: FuncName, s: Loop,
                             iters: seq<nat>, port: Port)
    requires ConfigOk(cx) && f in cx.prog && hi <= |addr|
  {
    && EntryOk(cx, addr, lo, hi, p, HeaderFrame(f, s, iters + [0]), port.entry)
    && ExitsOk(cx, addr, lo, hi, p, port.exits, ExitingBlocks(cx.prog[f], s))
    && (forall x :: x in port.exits ==> x.0 in s.blocks || IsExitBlock(cx, x.0))
  }

  ghost predicate BlockPortOk(cx: Config, addr: seq<Addr>, lo: nat, hi: nat, p: Addr, f: FuncName, b: Block,
                              iters: seq<nat>, port: Port)
    requires ConfigOk(cx) && f in cx.prog && hi <= |addr|
  {
    && (Live(cx, f, b) ==> EntryOk(cx, addr, lo, hi, p, Frame(f, b, 0, iters), port.entry))
    && BlockExitsOk(cx, addr, lo, hi, p, f, b, port.exits)
  }

  /** Ports stay good while nodes of other blocks are laid out around them. */
  lemma LoopPortKept(cx: Config, addr0: seq<Addr>, addr: seq<Addr>, lo1: nat, hi1: nat, lo: nat, hi: nat, p: Addr,
                     f: FuncName, s: Loop, iters: seq<nat>, port: Port)
    requires ConfigOk(cx) && f in cx.prog && lo <= lo1 <= hi1 <= |addr0| && hi1 <= hi <= |addr| && addr0 <= addr
    requires LoopPortOk(cx, addr0, lo1, hi1, p, f, s, iters, port)
    requires forall r :: (lo <= r < lo1 || hi1 <= r < hi) ==> |addr[r]| > |p| && addr[r][|p|].block !in s.blocks
    ensures LoopPortOk(cx, addr, lo, hi, p, f, s, iters, port)
  {
    hide ConfigOk, Enter, FrameOk;
    assert forall r :: 0 <= r < |addr0| ==> addr[r] == addr0[r];
  }

  lemma BlockPortKept(cx: Config, addr0: seq<Addr>, addr: seq<Addr>, lo1: nat, hi1: nat, lo: nat, hi: nat, p: Addr,
                      f: FuncName, b: Block, iters: seq<nat>, port: Port)
    requires ConfigOk(cx) && f in cx.prog && lo <= lo1 <= hi1 <= |addr0| && hi1 <= hi <= |addr| && addr0 <= addr
    requires BlockPortOk(cx, addr0, lo1, hi1, p, f, b, iters, port)
    requires forall r :: (lo <= r < lo1 || hi1 <= r < hi) ==> |addr[r]| > |p| && addr[r][|p|].block != b
    ensures BlockPortOk(cx, addr, lo, hi, p, f, b, iters, port)
  {
    hide ConfigOk, Enter, FrameOk, Live;
    assert forall r :: 0 <= r < |addr0| ==> addr[r] == addr0[r];
  }

  /** What holds while a loop body's components are laid out. */
  ghost predicate PartsOk(cx: Config, addr: seq<Addr>, fwd: map<nat, set<nat>>, lo: nat, hi: nat, p: Addr, f: FuncName,
                          l: Loop, iters: seq<nat>, loops: seq<Port>, blocks: map<Block, Port>)
    requires ConfigOk(cx)
  {
    && f in cx.prog
    && lo <= hi <= |addr|
    && |loops| <= |l.subs|
    && LaidOut(cx, addr, fwd, lo, hi, p, f, Parts(l, |loops|, blocks.Keys), iters)
    && (forall i :: 0 <= i < |loops| ==> LoopPortOk(cx, addr, lo, hi, p, f, l.subs[i], iters, loops[i]))
    && (forall b :: b in blocks ==> BlockPortOk(cx, addr, lo, hi, p, f, b, iters, blocks[b]))
  }

  lemma PartBlocks(cx: Config, addr: seq<Addr>, lo: nat, hi: nat, p: Addr, f: FuncName, l: Loop, m: nat,
                   done: set<Block>, iters: seq<nat>)
    requires LoopOf(cx, f, l) && Covers(cx, addr, lo, hi, p, f, Parts(l, m, done), iters) && m <= |l.subs|
    ensures forall r :: lo <= r < hi ==> |addr[r]| > |p|
    ensures forall r, i :: lo <= r < hi && m <= i < |l.subs| ==> addr[r][|p|].block !in l.subs[i].blocks
    ensures forall r, b :: lo <= r < hi && b in PlainBlocks(l) && b !in done ==> addr[r][|p|].block != b
  {
    forall r, i | lo <= r < hi && m <= i < |l.subs|
      ensures addr[r][|p|].block !in l.subs[i].blocks
    {
      assert InPart(cx, p, f, Parts(l, m, done), iters, addr[r]);
      SubOk(cx, f, l, i);
    }
    forall r | lo <= r < hi
      ensures |addr[r]| > |p| && forall b :: b in PlainBlocks(l) && b !in done ==> addr[r][|p|].block != b
    {
      assert InPart(cx, p, f, Parts(l, m, done), iters, addr[r]);
    }
  }

  lemma LoopAppended(cx: Config, s: Snapshot, s': Snapshot, lo: nat, p: Addr, f: FuncName, l: Loop, iters: seq<nat>,
                     loops: seq<Port>, port: Port)
    requires ConfigOk(cx) && AllFramesOk(cx, p) && LoopOf(cx, f, l) && |loops| < |l.subs|
    requires |s.addr| == |s.nodes| && |s'.addr| == |s'.nodes| && Kept(|s.nodes|, s, s')
    requires PartsOk(cx, s.addr, s.fwd, lo, |s.nodes|, p, f, l, iters, loops, map[])
    requires LaidOut(cx, s'.addr, s'.fwd, |s.nodes|, |s'.nodes|, p, f, Unrolled(l.subs[|loops|]), iters)
    requires LoopPortOk(cx, s'.addr, |s.nodes|, |s'.nodes|, p, f, l.subs[|loops|], iters, port)
    ensures PartsOk(cx, s'.addr, s'.fwd, lo, |s'.nodes|, p, f, l, iters, loops + [port], map[])
  {
    hide ConfigOk, Wired, InPart, StepIn, LoopPortOk, LoopOf;
    var m, mid, hi := |loops|, |s.nodes|, |s'.nodes|;
    var none: map<Block, Port> := map[];
    assert none.Keys == {};
    LaidOutKept(cx, s.addr, s'.addr, s.fwd, s'.fwd, lo, mid, p, f, Parts(l, m, {}), iters);
    PartsTakeLoop(cx, f, l, m, iters);
    SubOk(cx, f, l, m);
    Merge(cx, s'.addr, s'.fwd, lo, mid, hi, p, f, Parts(l, m + 1, {}), iters, Parts(l, m, {}), iters,
          Unrolled(l.subs[m]), iters);
    PartBlocks(cx, s'.addr, lo, mid, p, f, l, m, {}, iters);
    LoopBlocks(cx, s'.addr, mid, hi, p, f, l.subs[m], iters);
    LoopPortKept(cx, s'.addr, s'.addr, mid, hi, lo, hi, p, f, l.subs[m], iters, port);
    forall i | 0 <= i < m
      ensures LoopPortOk(cx, s'.addr, lo, hi, p, f, l.subs[i], iters, loops[i])
    {
      SubOk(cx, f, l, i);
      LoopPortKept(cx, s.addr, s'.addr, lo, mid, lo, hi, p, f, l.subs[i], iters, loops[i]);
    }
  }

  lemma LoopBlocks(cx: Config, addr: seq<Addr>, lo: nat, hi: nat, p: Addr, f: FuncName, l: Loop, iters: seq<nat>)
    requires Covers(cx, addr, lo, hi, p, f, Unrolled(l), iters)
    ensures forall r :: lo <= r < hi ==> |addr[r]| > |p| && addr[r][|p|].block in l.blocks
  {
    forall r | lo <= r < hi
      ensures |addr[r]| > |p| && addr[r][|p|].block in l.blocks
    {
      assert InPart(cx, p, f, Unrolled(l), iters, addr[r]);
    }
  }

  lemma ChainBlocks(cx: Config, addr: seq<Addr>, lo: nat, hi: nat, p: Addr, f: FuncName, b: Block, n: nat,
                    iters: seq<nat>)
    requires Covers(cx, addr, lo, hi, p, f, Chain(b, n), iters)
    ensures forall r :: lo <= r < hi ==> |addr[r]| > |p| && addr[r][|p|].block == b
  {
    forall r | lo <= r < hi
      ensures |addr[r]| > |p| && addr[r][|p|].block == b
    {
      assert InPart(cx, p, f, Chain(b, n), iters, addr[r]);
    }
  }

  lemma BlockAppended(cx: Config, s: Snapshot, s': Snapshot, lo: nat, p: Addr, f: FuncName, l: Loop, iters: seq<nat>,
                      loops: seq<Port>, blocks: map<Block, Port>, b: Block, port: Port)
    requires ConfigOk(cx) && AllFramesOk(cx, p) && LoopOf(cx, f, l) && |loops| == |l.subs|
    requires b in PlainBlocks(l) && b !in blocks && blocks.Keys <= PlainBlocks(l) && b in cx.prog[f].code
    requires |s.addr| == |s.nodes| && |s'.addr| == |s'.nodes| && Kept(|s.nodes|, s, s')
    requires PartsOk(cx, s.addr, s.fwd, lo, |s.nodes|, p, f, l, iters, loops, blocks)
    requires LaidOut(cx, s'.addr, s'.fwd, |s.nodes|, |s'.nodes|, p, f, Chain(b, |cx.prog[f].code[b]|), iters)
    requires BlockPortOk(cx, s'.addr, |s.nodes|, |s'.nodes|, p, f, b, iters, port)
    ensures PartsOk(cx, s'.addr, s'.fwd, lo, |s'.nodes|, p, f, l, iters, loops, blocks[b := port])
  {
    hide ConfigOk, Wired, InPart, StepIn, LoopPortOk, BlockPortOk, LoopOf;
    var done, mid, hi, n := blocks.Keys, |s.nodes|, |s'.nodes|, |cx.prog[f].code[b]|;
    LaidOutKept(cx, s.addr, s'.addr, s.fwd, s'.fwd, lo, mid, p, f, Parts(l, |loops|, done), iters);
    PartsTakeBlock(cx, f, l, done, b, n, iters);
    Merge(cx, s'.addr, s'.fwd, lo, mid, hi, p, f, Parts(l, |loops|, done + {b}), iters, Parts(l, |loops|, done), iters,
          Chain(b, n), iters);
    assert blocks[b := port].Keys == done + {b};
    PartBlocks(cx, s'.addr, lo, mid, p, f, l, |loops|, done, iters);
    ChainBlocks(cx, s'.addr, mid, hi, p, f, b, n, iters);
    BlockPortKept(cx, s'.addr, s'.addr, mid, hi, lo, hi, p, f, b, iters, port);
    forall i | 0 <= i < |loops|
      ensures LoopPortOk(cx, s'.addr, lo, hi, p, f, l.subs[i], iters, loops[i])
    {
      SubOk(cx, f, l, i);
      LoopPortKept(cx, s.addr, s'.addr, lo, mid, lo, hi, p, f, l.subs[i], iters, loops[i]);
    }
    forall d | d in blocks
      ensures BlockPortOk(cx, s'.addr, lo, hi, p, f, d, iters, blocks[d])
    {
      BlockPortKept(cx, s.addr, s'.addr, lo, mid, lo, hi, p, f, d, iters, blocks[d]);
    }
  }

  /** The port of the component of `l` that holds `d`. */
  function PortOf(l: Loop, loops: seq<Port>, blocks: map<Block, Port>, d: Block): Port
    requires |loops| == |l.subs| && (SubIndex(l.subs, d) < 0 ==> d in blocks)
  {
    if SubIndex(l.subs, d) >= 0 then loops[SubIndex(l.subs, d)] else blocks[d]
  }

  /** `x` is an exit of the component that holds its block, and `d` a successor of
      that block which lies in `l` but not in the same subloop. */
  predicate Linked(fn: Function, l: Loop, loops: seq<Port>, blocks: map<Block, Port>, x: (Block, NodeRef), d: Block)
    requires |loops| == |l.subs|
  {
    var i := SubIndex(l.subs, x.0);
    && x.0 in fn.succs && d in fn.succs[x.0] && d in l.blocks
    && if i >= 0 then x in loops[i].exits && d !in l.subs[i].blocks
       else x.0 in blocks && x in blocks[x.0].exits
  }

  function AllExits(loops: seq<Port>, blocks: map<Block, Port>): set<(Block, NodeRef)> {
    (set i, x | 0 <= i < |loops| && x in loops[i].exits :: x) + (set b, x | b in blocks && x in blocks[b].exits :: x)
  }

  /** The edges between components: from every exit of a block to the entry of each
      successor's component. */
  function Links(fn: Function, l: Loop, loops: seq<Port>, blocks: map<Block, Port>): (links: set<(NodeRef, NodeRef)>)
    requires |loops| == |l.subs| && forall d :: d in l.blocks && SubIndex(l.subs, d) < 0 ==> d in blocks
  {
    set x, d | x in AllExits(loops, blocks) && d in l.blocks && Linked(fn, l, loops, blocks, x, d) ::
      (x.1, PortOf(l, loops, blocks, d).entry)
  }

  /** The loop body is complete but for the edges between its components. */
  ghost predicate Complete(cx: Config, addr: seq<Addr>, fwd: map<nat, set<nat>>, lo: nat, hi: nat, p: Addr, f: FuncName,
                           l: Loop, iters: seq<nat>, loops: seq<Port>, blocks: map<Block, Port>)
    requires ConfigOk(cx)
  {
    PartsOk(cx, addr, fwd, lo, hi, p, f, l, iters, loops, blocks) && |loops| == |l.subs| &&
      blocks.Keys == PlainBlocks(l)
  }

  lemma TargetPort(cx: Config, addr: seq<Addr>, fwd: map<nat, set<nat>>, lo: nat, hi: nat, p: Addr, f: FuncName,
                   l: Loop, iters: seq<nat>, loops: seq<Port>, blocks: map<Block, Port>, b: Block, d: Block)
    requires ConfigOk(cx) && LoopOf(cx, f, l) && Complete(cx, addr, fwd, lo, hi, p, f, l, iters, loops, blocks)
    requires b in cx.prog[f].succs && d in cx.prog[f].succs[b] && d in l.blocks
    requires !(SubIndex(l.subs, b) >= 0 && d in l.subs[SubIndex(l.subs, b)].blocks)
    ensures EntryOk(cx, addr, lo, hi, p, HopTarget(f, l, iters, d), PortOf(l, loops, blocks, d).entry)
  {
    hide LaidOut, ExitsOk, ConfigOk, Enter, FrameOk;
    assert HasPredecessor(cx.prog[f], d) && Live(cx, f, d);
    var i := SubIndex(l.subs, d);
    if i >= 0 {
      SubOk(cx, f, l, i);
      assert b !in l.subs[i].blocks;
      assert d == l.subs[i].header;
    } else {
      assert iters + [] == iters;
    }
  }

  lemma SourceExit(cx: Config, addr: seq<Addr>, fwd: map<nat, set<nat>>, lo: nat, hi: nat, p: Addr, f: FuncName,
                   l: Loop, iters: seq<nat>, loops: seq<Port>, blocks: map<Block, Port>, r: nat, d: Block)
    requires ConfigOk(cx) && LoopOf(cx, f, l) && Complete(cx, addr, fwd, lo, hi, p, f, l, iters, loops, blocks)
    requires lo <= r < hi && Hop(cx, p, f, l, iters, addr[r], d) && addr[r][|p|].block in l.blocks
    ensures (r, PortOf(l, loops, blocks, d).entry) in Links(cx.prog[f], l, loops, blocks)
  {
    hide LaidOut, ConfigOk, EntryOk;
    var b := addr[r][|p|].block;
    var i := SubIndex(l.subs, b);
    assert Ends(cx, p, addr[r], b);
    if i >= 0 {
      assert Exiting(cx.prog[f], l.subs[i], b);
      assert LoopPortOk(cx, addr, lo, hi, p, f, l.subs[i], iters, loops[i]);
      assert (b, r) in loops[i].exits && (b, r) in AllExits(loops, blocks);
    } else {
      assert BlockPortOk(cx, addr, lo, hi, p, f, b, iters, blocks[b]);
      assert (b, r) in blocks[b].exits && (b, r) in AllExits(loops, blocks);
    }
    assert Linked(cx.prog[f], l, loops, blocks, (b, r), d);
  }

  lemma ExitHops(cx: Config, addr: seq<Addr>, fwd: map<nat, set<nat>>, lo: nat, hi: nat, p: Addr, f: FuncName, l: Loop,
                 iters: seq<nat>, m: nat, done: set<Block>, exits: set<(Block, NodeRef)>, need: set<Block>,
                 x: (Block, NodeRef), d: Block)
    requires ConfigOk(cx) && LaidOut(cx, addr, fwd, lo, hi, p, f, Parts(l, m, done), iters) && f in cx.prog
    requires ExitsOk(cx, addr, lo, hi, p, exits, need) && x in exits && x.0 in need
    requires x.0 in cx.prog[f].succs && d in cx.prog[f].succs[x.0] && d in l.blocks
    requires !(SubIndex(l.subs, x.0) >= 0 && d in l.subs[SubIndex(l.subs, x.0)].blocks)
    ensures lo <= x.1 < hi && Hop(cx, p, f, l, iters, addr[x.1], d)
  {
    hide ConfigOk, Wired, StepIn;
    assert Ends(cx, p, addr[x.1], x.0);
    assert InPart(cx, p, f, Parts(l, m, done), iters, addr[x.1]);
  }

  lemma LinkHops(cx: Config, addr: seq<Addr>, fwd: map<nat, set<nat>>, lo: nat, hi: nat, p: Addr, f: FuncName, l: Loop,
                 iters: seq<nat>, loops: seq<Port>, blocks: map<Block, Port>, x: (Block, NodeRef), d: Block)
    requires ConfigOk(cx) && Complete(cx, addr, fwd, lo, hi, p, f, l, iters, loops, blocks)
    requires Linked(cx.prog[f], l, loops, blocks, x, d)
    ensures lo <= x.1 < hi && Hop(cx, p, f, l, iters, addr[x.1], d)
  {
    hide ConfigOk, EntryOk, LaidOut, ExitsOk, Hop;
    var i := SubIndex(l.subs, x.0);
    if i >= 0 {
      assert LoopPortOk(cx, addr, lo, hi, p, f, l.subs[i], iters, loops[i]);
      ExitHops(cx, addr, fwd, lo, hi, p, f, l, iters, |loops|, blocks.Keys, loops[i].exits,
               ExitingBlocks(cx.prog[f], l.subs[i]), x, d);
    } else {
      assert BlockPortOk(cx, addr, lo, hi, p, f, x.0, iters, blocks[x.0]);
      ExitHops(cx, addr, fwd, lo, hi, p, f, l, iters, |loops|, blocks.Keys, blocks[x.0].exits, {x.0}, x, d);
    }
  }

  /** Every link leaves a block end for the port of a successor in another component. */
  lemma LinkSource(cx: Config, addr: seq<Addr>, fwd: map<nat, set<nat>>, lo: nat, hi: nat, p: Addr, f: FuncName,
                   l: Loop, iters: seq<nat>, loops: seq<Port>, blocks: map<Block, Port>, e: (NodeRef, NodeRef))
    returns (d: Block)
    requires ConfigOk(cx) && Complete(cx, addr, fwd, lo, hi, p, f, l, iters, loops, blocks)
    requires e in Links(cx.prog[f], l, loops, blocks)
    ensures lo <= e.0 < hi && Hop(cx, p, f, l, iters, addr[e.0], d) && e.1 == PortOf(l, loops, blocks, d).entry
  {
    hide ConfigOk, LaidOut, LoopPortOk, BlockPortOk, Hop, Linked, AllExits;
    var x, d0 :| x in AllExits(loops, blocks) && d0 in l.blocks && Linked(cx.prog[f], l, loops, blocks, x, d0) &&
      e == (x.1, PortOf(l, loops, blocks, d0).entry);
    d := d0;
    LinkHops(cx, addr, fwd, lo, hi, p, f, l, iters, loops, blocks, x, d);
  }

  lemma BodyAdded(cx: Config, addr: seq<Addr>, fwd: map<nat, set<nat>>, lo: nat, hi: nat, p: Addr, f: FuncName, l: Loop,
                  iters: seq<nat>, loops: seq<Port>, blocks: map<Block, Port>)
    requires ConfigOk(cx) && LoopOf(cx, f, l) && Complete(cx, addr, fwd, lo, hi, p, f, l, iters, loops, blocks)
    ensures AddedBy(cx, addr, lo, hi, p, Body(l), iters, Parts(l, |l.subs|, PlainBlocks(l)), iters,
                    Links(cx.prog[f], l, loops, blocks))
  {
    hide ConfigOk, Wired, InPart, StepIn, LoopOf, Links;
    var links := Links(cx.prog[f], l, loops, blocks);
    forall e | e in links
      ensures lo <= e.0 < hi && lo <= e.1 < hi
    {
      var d := LinkSource(cx, addr, fwd, lo, hi, p, f, l, iters, loops, blocks, e);
      TargetPort(cx, addr, fwd, lo, hi, p, f, l, iters, loops, blocks, addr[e.0][|p|].block, d);
    }
    forall r: nat, s: nat | lo <= r < hi && lo <= s < hi
      ensures StepIn(cx, p, Body(l), iters, addr[r], addr[s]) <==>
              StepIn(cx, p, Parts(l, |l.subs|, PlainBlocks(l)), iters, addr[r], addr[s]) || (r, s) in links
    {
      BodyAddedOne(cx, addr, fwd, lo, hi, p, f, l, iters, loops, blocks, r, s);
    }
  }

  lemma BodyAddedOne(cx: Config, addr: seq<Addr>, fwd: map<nat, set<nat>>, lo: nat, hi: nat, p: Addr, f: FuncName,
                     l: Loop, iters: seq<nat>, loops: seq<Port>, blocks: map<Block, Port>, r: nat, s: nat)
    requires ConfigOk(cx) && LoopOf(cx, f, l) && Complete(cx, addr, fwd, lo, hi, p, f, l, iters, loops, blocks)
    requires lo <= r < hi && lo <= s < hi
    ensures StepIn(cx, p, Body(l), iters, addr[r], addr[s]) <==>
            StepIn(cx, p, Parts(l, |l.subs|, PlainBlocks(l)), iters, addr[r], addr[s]) ||
            (r, s) in Links(cx.prog[f], l, loops, blocks)
  {
    hide ConfigOk, Wired, StepIn, LoopOf, Links, LoopPortOk, BlockPortOk, Position, Live;
    var links := Links(cx.prog[f], l, loops, blocks);
    assert InPart(cx, p, f, Parts(l, |l.subs|, PlainBlocks(l)), iters, addr[r]);
    BodyLinks(cx, p, f, l, iters, addr[r], addr[s]);
    if d :| Hop(cx, p, f, l, iters, addr[r], d) && FrameOk(cx, HopTarget(f, l, iters, d)) &&
            addr[s] == Enter(cx, p, HopTarget(f, l, iters, d))
    {
      SourceExit(cx, addr, fwd, lo, hi, p, f, l, iters, loops, blocks, r, d);
      TargetPort(cx, addr, fwd, lo, hi, p, f, l, iters, loops, blocks, addr[r][|p|].block, d);
      assert s == PortOf(l, loops, blocks, d).entry;
    }
    if (r, s) in links {
      var d := LinkSource(cx, addr, fwd, lo, hi, p, f, l, iters, loops, blocks, (r, s));
      TargetPort(cx, addr, fwd, lo, hi, p, f, l, iters, loops, blocks, addr[r][|p|].block, d);
    }
  }

  lemma BodyFinished(cx: Config, addr: seq<Addr>, fwd: map<nat, set<nat>>, fwd': map<nat, set<nat>>, lo: nat, hi: nat,
                     p: Addr, f: FuncName, l: Loop, iters: seq<nat>, loops: seq<Port>, blocks: map<Block, Port>)
    requires ConfigOk(cx) && LoopOf(cx, f, l) && (l == cx.prog[f].root || IsLoop(cx.prog[f], l))
    requires Complete(cx, addr, fwd, lo, hi, p, f, l, iters, loops, blocks)
    requires forall r: nat, s: nat :: Edge(fwd', r, s) <==>
             Edge(fwd, r, s) || (r, s) in Links(cx.prog[f], l, loops, blocks)
    ensures LaidOut(cx, addr, fwd', lo, hi, p, f, Body(l), iters)
    ensures SubIndex(l.subs, l.header) < 0 && l.header in blocks
    ensures EntryOk(cx, addr, lo, hi, p, HeaderFrame(f, l, iters), blocks[l.header].entry)
  {
    hide ConfigOk, Wired, InPart, StepIn, Links, Covers, Enter, ExitsOk;
    BodyAdded(cx, addr, fwd, lo, hi, p, f, l, iters, loops, blocks);
    PartsMakeBody(cx, f, l, iters);
    Relink(cx, addr, fwd, fwd', lo, hi, p, f, Body(l), iters, Parts(l, |l.subs|, PlainBlocks(l)), iters,
           Links(cx.prog[f], l, loops, blocks));
    HeaderOk(cx, f, l, iters);
    var rank :| WellNested(cx.prog[f], rank, l);
    assert BlockPortOk(cx, addr, lo, hi, p, f, l.header, iters, blocks[l.header]);
  }

  /** The exits of a loop body: those of the components that hold its exit blocks. */
  function BodyExits(l: Loop, loops: seq<Port>, blocks: map<Block, Port>, exits: set<Block>): set<(Block, NodeRef)>
    requires |loops| == |l.subs| && forall b :: b in exits && SubIndex(l.subs, b) < 0 ==> b in blocks
  {
    set b, x | b in exits && x in PortOf(l, loops, blocks, b).exits :: x
  }

  /** What a loop forest is asked for: the blocks a loop is left from, or those a function returns from. */
  ghost predicate ExitSet(cx: Config, f: FuncName, l: Loop, exits: set<Block>)
    requires f in cx.prog
  {
    && exits <= l.blocks
    && (forall b :: b in exits && SubIndex(l.subs, b) >= 0 ==> Exiting(cx.prog[f], l.subs[SubIndex(l.subs, b)], b))
    && (exits !! ExitBlocks(cx.prog[f]) ||
        (exits <= ExitBlocks(cx.prog[f]) && forall b :: b in exits ==> SubIndex(l.subs, b) < 0))
  }

  lemma PortExitsOk(cx: Config, addr: seq<Addr>, fwd: map<nat, set<nat>>, lo: nat, hi: nat, p: Addr, f: FuncName,
                    l: Loop, iters: seq<nat>, loops: seq<Port>, blocks: map<Block, Port>, exits: set<Block>, b: Block,
                    x: (Block, NodeRef))
    requires ConfigOk(cx) && LoopOf(cx, f, l) && Complete(cx, addr, fwd, lo, hi, p, f, l, iters, loops, blocks)
    requires ExitSet(cx, f, l, exits) && b in exits && x in PortOf(l, loops, blocks, b).exits
    ensures lo <= x.1 < hi && (x.0 in exits ==> Ends(cx, p, addr[x.1], x.0))
    ensures x.0 in l.blocks || IsExitBlock(cx, x.0)
    ensures exits <= ExitBlocks(cx.prog[f]) ==> x.0 in exits
  {
    hide ConfigOk, LaidOut, EntryOk, Ends, Live, LoopOf, IsExitBlock;
    var i := SubIndex(l.subs, b);
    LoopBlocksKnown(cx, f, l);
    if x.0 in exits && x.0 !in ExitBlocks(cx.prog[f]) {
      GoesOn(cx, f, x.0);
    }
    if i >= 0 {
      SubOk(cx, f, l, i);
      assert LoopPortOk(cx, addr, lo, hi, p, f, l.subs[i], iters, loops[i]);
    } else {
      assert BlockPortOk(cx, addr, lo, hi, p, f, b, iters, blocks[b]);
    }
  }

  lemma BodyExitsOk(cx: Config, addr: seq<Addr>, fwd: map<nat, set<nat>>, lo: nat, hi: nat, p: Addr, f: FuncName,
                    l: Loop, iters: seq<nat>, loops: seq<Port>, blocks: map<Block, Port>, exits: set<Block>)
    requires ConfigOk(cx) && LoopOf(cx, f, l) && Complete(cx, addr, fwd, lo, hi, p, f, l, iters, loops, blocks)
    requires ExitSet(cx, f, l, exits)
    ensures ExitsOk(cx, addr, lo, hi, p, BodyExits(l, loops, blocks, exits), exits)
    ensures forall x :: x in BodyExits(l, loops, blocks, exits) ==> x.0 in l.blocks || IsExitBlock(cx, x.0)
    ensures exits <= ExitBlocks(cx.prog[f]) ==> forall x :: x in BodyExits(l, loops, blocks, exits) ==> x.0 in exits
  {
    hide ConfigOk, LaidOut, EntryOk, Ends, Live, LoopOf, IsExitBlock, ExitBlocks;
    forall x | x in BodyExits(l, loops, blocks, exits)
      ensures lo <= x.1 < hi && (x.0 in exits ==> Ends(cx, p, addr[x.1], x.0))
      ensures x.0 in l.blocks || IsExitBlock(cx, x.0)
      ensures exits <= ExitBlocks(cx.prog[f]) ==> x.0 in exits
    {
      var b :| b in exits && x in PortOf(l, loops, blocks, b).exits;
      PortExitsOk(cx, addr, fwd, lo, hi, p, f, l, iters, loops, blocks, exits, b, x);
    }
    forall r: nat, b | lo <= r < hi && b in exits && Ends(cx, p, addr[r], b)
      ensures (b, r) in BodyExits(l, loops, blocks, exits)
    {
      var i := SubIndex(l.subs, b);
      if i >= 0 {
        assert LoopPortOk(cx, addr, lo, hi, p, f, l.subs[i], iters, loops[i]);
      } else {
        assert BlockPortOk(cx, addr, lo, hi, p, f, b, iters, blocks[b]);
      }
      assert (b, r) in PortOf(l, loops, blocks, b).exits;
    }
  }

  // ---------------------------------------------------------------- iterations

  /** Taking the edges into the header's entry out of a body cuts it, and those edges
      came from the nodes that go back to the header. */
  lemma BodyCut(cx: Config, addr: seq<Addr>, fwd: map<nat, set<nat>>, fwd': map<nat, set<nat>>, lo: nat, hi: nat,
                p: Addr, f: FuncName, l: Loop, iters: seq<nat>, entry: NodeRef)
    requires ConfigOk(cx) && AllFramesOk(cx, p) && LoopOf(cx, f, l)
    requires LaidOut(cx, addr, fwd, lo, hi, p, f, Body(l), iters)
    requires EntryOk(cx, addr, lo, hi, p, HeaderFrame(f, l, iters), entry)
    requires forall r: nat, s: nat :: Edge(fwd', r, s) <==> Edge(fwd, r, s) && s != entry
    ensures LaidOut(cx, addr, fwd', lo, hi, p, f, Cut(l), iters)
    ensures forall r: nat :: lo <= r < hi ==> (Edge(fwd, r, entry) <==> GoesBack(cx, p, f, l, addr[r]))
  {
    hide ConfigOk, InPart, StepIn, LoopOf, GoesBack, Enter;
    RoundsMakeLoop(cx, f, l, iters);
    SameCovers(cx, addr, lo, hi, p, f, Cut(l), iters, Body(l), iters);
    forall r: nat, s: nat | lo <= r < hi
      ensures Edge(fwd', r, s) <==> lo <= s < hi && StepIn(cx, p, Cut(l), iters, addr[r], addr[s])
    {
      if lo <= s < hi {
        BackEdges(cx, p, f, l, iters, addr[r], addr[s]);
        assert addr[s] == addr[entry] <==> s == entry;
      }
    }
    forall r: nat | lo <= r < hi
      ensures Edge(fwd, r, entry) <==> GoesBack(cx, p, f, l, addr[r])
    {
      BackEdges(cx, p, f, l, iters, addr[r], addr[r]);
    }
  }

  /** `c` goes back to `l`'s header from iteration `m`. */
  ghost predicate BackFrom(cx: Config, p: Addr, f: FuncName, l: Loop, iters: seq<nat>, m: nat, a: Addr) {
    GoesBack(cx, p, f, l, a) && |a[|p|].iters| > |iters| && a[|p|].iters[|iters|] == m
  }

  /** `refs` are the nodes that go back to `l`'s header from iteration `m`. */
  ghost predicate BackRefs(cx: Config, addr: seq<Addr>, lo: nat, hi: nat, p: Addr, f: FuncName, l: Loop,
                           iters: seq<nat>, m: nat, refs: set<NodeRef>)
    requires hi <= |addr|
  {
    forall c: nat :: c in refs <==> lo <= c < hi && BackFrom(cx, p, f, l, iters, m, addr[c])
  }

  /** What holds while the iterations of `l` are laid out. */
  ghost predicate RoundsOk(cx: Config, addr: seq<Addr>, fwd: map<nat, set<nat>>, lo: nat, hi: nat, p: Addr, f: FuncName,
                           l: Loop, iters: seq<nat>, entries: seq<NodeRef>, continuations: seq<set<NodeRef>>,
                           exits: set<(Block, NodeRef)>)
    requires ConfigOk(cx)
  {
    && f in cx.prog
    && lo <= hi <= |addr|
    && |entries| == |continuations|
    && LaidOut(cx, addr, fwd, lo, hi, p, f, Rounds(l, |entries|), iters)
    && (forall m :: 0 <= m < |entries| ==> EntryOk(cx, addr, lo, hi, p, HeaderFrame(f, l, iters + [m]), entries[m]))
    && (forall m :: 0 <= m < |entries| ==> BackRefs(cx, addr, lo, hi, p, f, l, iters, m, continuations[m]))
    && ExitsOk(cx, addr, lo, hi, p, exits, ExitingBlocks(cx.prog[f], l))
    && (forall x :: x in exits ==> x.0 in l.blocks || IsExitBlock(cx, x.0))
  }

  lemma NoRounds(cx: Config, addr: seq<Addr>, fwd: map<nat, set<nat>>, p: Addr, f: FuncName, l: Loop, iters: seq<nat>)
    requires ConfigOk(cx) && f in cx.prog
    ensures RoundsOk(cx, addr, fwd, |addr|, |addr|, p, f, l, iters, [], [], {})
  {
    EmptyPart(cx, addr, fwd, p, f, Rounds(l, 0), iters);
  }

  lemma RoundFrames(cx: Config, addr: seq<Addr>, lo: nat, hi: nat, p: Addr, f: FuncName, l: Loop, v: View,
                    iters: seq<nat>, n: nat, r: nat)
    requires lo <= r < hi
    requires (v == Rounds(l, n) && Covers(cx, addr, lo, hi, p, f, v, iters)) ||
             ((v == Cut(l) || v == Body(l)) && Covers(cx, addr, lo, hi, p, f, v, iters + [n]))
    ensures |addr[r]| > |p| && addr[r][|p|].block in l.blocks && |addr[r][|p|].iters| > |iters|
    ensures if v.Rounds? then addr[r][|p|].iters[|iters|] < n else addr[r][|p|].iters[|iters|] == n
  {
    if v.Rounds? {
      assert InPart(cx, p, f, v, iters, addr[r]);
    } else {
      assert InPart(cx, p, f, v, iters + [n], addr[r]);
      var it := addr[r][|p|].iters;
      assert it[..|iters| + 1][|iters|] == (iters + [n])[|iters|];
    }
  }

  lemma RoundAppended(cx: Config, s: Snapshot, s': Snapshot, fwd: map<nat, set<nat>>, lo: nat, p: Addr, f: FuncName,
                      l: Loop, iters: seq<nat>, entries: seq<NodeRef>, continuations: seq<set<NodeRef>>,
                      exits: set<(Block, NodeRef)>, port: Port, back: set<NodeRef>)
    requires ConfigOk(cx) && AllFramesOk(cx, p) && LoopOf(cx, f, l)
    requires |s.addr| == |s.nodes| && |s'.addr| == |s'.nodes| && Kept(|s.nodes|, s, s')
    requires RoundsOk(cx, s.addr, s.fwd, lo, |s.nodes|, p, f, l, iters, entries, continuations, exits)
    requires LaidOut(cx, s'.addr, s'.fwd, |s.nodes|, |s'.nodes|, p, f, Body(l), iters + [|entries|])
    requires EntryOk(cx, s'.addr, |s.nodes|, |s'.nodes|, p, HeaderFrame(f, l, iters + [|entries|]), port.entry)
    requires ExitsOk(cx, s'.addr, |s.nodes|, |s'.nodes|, p, port.exits, ExitingBlocks(cx.prog[f], l))
    requires forall x :: x in port.exits ==> x.0 in l.blocks || IsExitBlock(cx, x.0)
    requires forall r: nat, t: nat :: Edge(fwd, r, t) <==> Edge(s'.fwd, r, t) && t != port.entry
    requires forall r: nat :: r < |s.nodes| ==> r in fwd && !Edge(s'.fwd, r, port.entry)
    requires forall r: nat :: r in back <==> Edge(s'.fwd, r, port.entry)
    requires forall r: nat :: r in s'.fwd ==> r < |s'.nodes|
    ensures RoundsOk(cx, s'.addr, fwd, lo, |s'.nodes|, p, f, l, iters, entries + [port.entry], continuations +
                     [back], exits + port.exits)
  {
    hide ConfigOk, InPart, StepIn, LoopOf, GoesBack, Enter, Wired, Covers, Ends, AllFramesOk;
    var n, mid, hi := |entries|, |s.nodes|, |s'.nodes|;
    BodyCut(cx, s'.addr, s'.fwd, fwd, mid, hi, p, f, l, iters + [n], port.entry);
    RoundKept(s.fwd, s'.fwd, fwd, mid, port.entry);
    LaidOutKept(cx, s.addr, s'.addr, s.fwd, fwd, lo, mid, p, f, Rounds(l, n), iters);
    RoundsTakeCut(cx, f, l, n, iters);
    Merge(cx, s'.addr, fwd, lo, mid, hi, p, f, Rounds(l, n + 1), iters, Rounds(l, n), iters, Cut(l), iters + [n]);
    assert forall r :: 0 <= r < mid ==> s'.addr[r] == s.addr[r];
    forall c: nat | mid <= c < hi
      ensures |s'.addr[c]| > |p| && |s'.addr[c][|p|].iters| > |iters| && s'.addr[c][|p|].iters[|iters|] == n
    {
      RoundFrames(cx, s'.addr, mid, hi, p, f, l, Cut(l), iters, n, c);
    }
    forall c: nat | lo <= c < mid
      ensures |s'.addr[c]| > |p| && |s'.addr[c][|p|].iters| > |iters| && s'.addr[c][|p|].iters[|iters|] < n
    {
      RoundFrames(cx, s'.addr, lo, mid, p, f, l, Rounds(l, n), iters, n, c);
    }
    var entries', continuations' := entries + [port.entry], continuations + [back];
    forall m | 0 <= m < n + 1
      ensures BackRefs(cx, s'.addr, lo, hi, p, f, l, iters, m, continuations'[m])
    {
      if m < n {
        assert BackRefs(cx, s.addr, lo, mid, p, f, l, iters, m, continuations[m]);
        assert continuations'[m] == continuations[m];
      } else {
        assert continuations'[m] == back;
        assert forall c: nat :: c in back ==> mid <= c < hi;
      }
    }
    forall m | 0 <= m < n + 1
      ensures EntryOk(cx, s'.addr, lo, hi, p, HeaderFrame(f, l, iters + [m]), entries'[m])
    {
      if m < n {
        assert EntryOk(cx, s.addr, lo, mid, p, HeaderFrame(f, l, iters + [m]), entries[m]);
      }
    }
  }

  lemma RoundKept(fwd0: map<nat, set<nat>>, fwd1: map<nat, set<nat>>, fwd: map<nat, set<nat>>, mid: nat, entry: NodeRef)
    requires forall r: nat :: r < mid ==>
               r in fwd0 && r in fwd1 && fwd1[r] == fwd0[r] && r in fwd && !Edge(fwd1, r, entry)
    requires forall r: nat, t: nat :: Edge(fwd, r, t) <==> Edge(fwd1, r, t) && t != entry
    ensures forall r: nat :: r < mid ==> r in fwd0 && r in fwd && fwd[r] == fwd0[r]
  {
    forall r: nat | r < mid
      ensures fwd[r] == fwd0[r]
    {
      assert forall t: nat :: (t in fwd[r] <==> Edge(fwd, r, t)) && (t in fwd0[r] <==> Edge(fwd1, r, t));
    }
  }

  function GlueEdges(k: nat, entries: seq<NodeRef>, continuations: seq<set<NodeRef>>): set<(NodeRef, NodeRef)>
    requires |entries| == |continuations| == k + 1
  {
    set m, c | 0 <= m < k && c in continuations[m] :: (c, entries[m + 1])
  }

  lemma GlueAdded(cx: Config, addr: seq<Addr>, fwd: map<nat, set<nat>>, lo: nat, hi: nat, p: Addr, f: FuncName, l: Loop,
                  iters: seq<nat>, entries: seq<NodeRef>, continuations: seq<set<NodeRef>>,
                  exits: set<(Block, NodeRef)>)
    requires ConfigOk(cx) && LoopOf(cx, f, l) && IsLoop(cx.prog[f], l) && |entries| == cx.k + 1
    requires RoundsOk(cx, addr, fwd, lo, hi, p, f, l, iters, entries, continuations, exits)
    ensures AddedBy(cx, addr, lo, hi, p, Unrolled(l), iters, Rounds(l, cx.k + 1), iters,
                    GlueEdges(cx.k, entries, continuations))
  {
    hide ConfigOk, InPart, StepIn, LoopOf, IsLoop, ExitsOk, Wired, Enter, GlueEdges;
    GlueInRange(cx, addr, fwd, lo, hi, p, f, l, iters, entries, continuations, exits);
    forall r: nat, s: nat | lo <= r < hi && lo <= s < hi
      ensures StepIn(cx, p, Unrolled(l), iters, addr[r], addr[s]) <==>
              StepIn(cx, p, Rounds(l, cx.k + 1), iters, addr[r], addr[s]) ||
                (r, s) in GlueEdges(cx.k, entries, continuations)
    {
      GlueAddedOne(cx, addr, fwd, lo, hi, p, f, l, iters, entries, continuations, exits, r, s);
    }
  }

  lemma GlueAddedOne(cx: Config, addr: seq<Addr>, fwd: map<nat, set<nat>>, lo: nat, hi: nat, p: Addr, f: FuncName,
                     l: Loop, iters: seq<nat>, entries: seq<NodeRef>, continuations: seq<set<NodeRef>>,
                     exits: set<(Block, NodeRef)>, r: nat, s: nat)
    requires ConfigOk(cx) && LoopOf(cx, f, l) && IsLoop(cx.prog[f], l) && |entries| == cx.k + 1
    requires RoundsOk(cx, addr, fwd, lo, hi, p, f, l, iters, entries, continuations, exits)
    requires lo <= r < hi && lo <= s < hi
    ensures StepIn(cx, p, Unrolled(l), iters, addr[r], addr[s]) <==>
            StepIn(cx, p, Rounds(l, cx.k + 1), iters, addr[r], addr[s]) ||
              (r, s) in GlueEdges(cx.k, entries, continuations)
  {
    hide ConfigOk, InPart, StepIn, LoopOf, IsLoop, ExitsOk, Wired, Enter, GoesBack, FrameOk;
    RoundFrames(cx, addr, lo, hi, p, f, l, Rounds(l, cx.k + 1), iters, cx.k + 1, r);
    var m := addr[r][|p|].iters[|iters|];
    HeaderOk(cx, f, l, iters + [m + 1]);
    GlueLinks(cx, p, f, l, iters, addr[r], addr[s]);
    if GoesBack(cx, p, f, l, addr[r]) && m < cx.k && addr[s] == Enter(cx, p, HeaderFrame(f, l, iters + [m + 1])) {
      assert BackRefs(cx, addr, lo, hi, p, f, l, iters, m, continuations[m]);
      assert r in continuations[m];
      assert addr[entries[m + 1]] == addr[s];
      assert s == entries[m + 1];
    }
    if (r, s) in GlueEdges(cx.k, entries, continuations) {
      var m', c :| 0 <= m' < cx.k && c in continuations[m'] && (r, s) == (c, entries[m' + 1]);
      assert BackRefs(cx, addr, lo, hi, p, f, l, iters, m', continuations[m']);
      assert BackFrom(cx, p, f, l, iters, m', addr[r]);
    }
  }

  lemma LoopFinished(cx: Config, addr: seq<Addr>, fwd: map<nat, set<nat>>, fwd': map<nat, set<nat>>, lo: nat, hi: nat,
                     p: Addr, f: FuncName, l: Loop, iters: seq<nat>, entries: seq<NodeRef>,
                     continuations: seq<set<NodeRef>>, exits: set<(Block, NodeRef)>)
    requires ConfigOk(cx) && LoopOf(cx, f, l) && IsLoop(cx.prog[f], l) && |entries| == cx.k + 1
    requires RoundsOk(cx, addr, fwd, lo, hi, p, f, l, iters, entries, continuations, exits)
    requires forall r: nat, s: nat :: Edge(fwd', r, s) <==>
             Edge(fwd, r, s) || (r, s) in GlueEdges(cx.k, entries, continuations)
    ensures LaidOut(cx, addr, fwd', lo, hi, p, f, Unrolled(l), iters)
    ensures LoopPortOk(cx, addr, lo, hi, p, f, l, iters, Port(entries[0], exits))
  {
    hide ConfigOk, Wired, LoopOf, IsLoop, ExitsOk, EntryOk, Covers, GlueEdges, StepIn;
    GlueAdded(cx, addr, fwd, lo, hi, p, f, l, iters, entries, continuations, exits);
    RoundsMakeLoop(cx, f, l, iters);
    Relink(cx, addr, fwd, fwd', lo, hi, p, f, Unrolled(l), iters, Rounds(l, cx.k + 1), iters,
           GlueEdges(cx.k, entries, continuations));
  }

  datatype Snapshot = Snapshot(nodes: seq<Node>, addr: seq<Addr>, fwd: map<NodeRef, set<NodeRef>>,
                               activation: map<seq<nat>, Addr>, copies: map<seq<nat>, Copy>,
                               idFunc: seq<nat>, idLoop: seq<nat>)

  /** Nothing is removed, the edges out of the first `n` nodes are the same, and new nodes bear the current
      identifiers or extensions of them. */
  ghost predicate Kept(n: nat, s: Snapshot, s': Snapshot) {
    && n <= |s.nodes|
    && s.nodes <= s'.nodes
    && s.addr <= s'.addr
    && (forall r: nat :: r < n ==> r in s.fwd && r in s'.fwd && s'.fwd[r] == s.fwd[r])
    && (forall id :: id in s.activation ==> id in s'.activation && s'.activation[id] == s.activation[id])
    && (forall id :: id in s.copies ==> id in s'.copies && s'.copies[id] == s.copies[id])
    && (forall r: nat :: |s.nodes| <= r < |s'.nodes| && s'.nodes[r].Inst? ==>
          s.idFunc <= s'.nodes[r].func && s.idLoop <= s'.nodes[r].loop)
  }

  lemma KeptTrans(n: nat, s: Snapshot, s': Snapshot, n': nat, s'': Snapshot)
    requires Kept(n, s, s') && Kept(n', s', s'') && n <= n' && s.idFunc <= s'.idFunc && s.idLoop <= s'.idLoop
    ensures Kept(n, s, s'')
  {
    assert forall r: nat :: |s.nodes| <= r < |s'.nodes| ==> s''.nodes[r] == s'.nodes[r];
  }

  /** An instruction's one exit is itself, under its block's name. An inlined call's
      are where the callee returns, under the names of the callee's blocks. */
  ghost predicate InstrExits(cx: Config, p: Addr, fr: Frame, addr: seq<Addr>, port: Port)
    requires FrameOk(cx, fr)
  {
    if Inlined(cx, p, fr) then forall x :: x in port.exits ==> IsExitBlock(cx, x.0)
    else port.exits == {(fr.block, port.entry)} && port.entry < |addr| && addr[port.entry] == p + [fr]
  }

  /** Instruction `j`, laid out behind the first `j` and connected, extends the block. */
  lemma InstructionAppended(cx: Config, s: Snapshot, s': Snapshot, fwd: map<nat, set<nat>>, lo: nat, p: Addr,
                            f: FuncName, b: Block, j: nat, iters: seq<nat>, port0: Port, cur: Port,
                            links: set<(NodeRef, NodeRef)>)
    requires ConfigOk(cx) && AllFramesOk(cx, p) && FrameOk(cx, Frame(f, b, j, iters))
    requires |s.addr| == |s.nodes| && |s'.addr| == |s'.nodes| && Kept(|s.nodes|, s, s')
    requires LaidOut(cx, s.addr, s.fwd, lo, |s.nodes|, p, f, Chain(b, j), iters)
    requires j > 0 ==> EntryOk(cx, s.addr, lo, |s.nodes|, p, Frame(f, b, 0, iters), port0.entry)
    requires forall x :: x in port0.exits ==> lo <= x.1 < |s.nodes|
    requires j > 0 ==> LeaveRefs(cx, s.addr, lo, |s.nodes|, p, j - 1, set x | x in port0.exits :: x.1)
    requires LaidOut(cx, s'.addr, s'.fwd, |s.nodes|, |s'.nodes|, p, f, OneInstr(b, j), iters)
    requires EntryOk(cx, s'.addr, |s.nodes|, |s'.nodes|, p, Frame(f, b, j, iters), cur.entry)
    requires forall x :: x in cur.exits ==> |s.nodes| <= x.1 < |s'.nodes|
    requires forall r: nat :: |s.nodes| <= r < |s'.nodes| ==>
               (Leaves(cx, p, s'.addr[r]) <==> exists x :: x in cur.exits && x.1 == r)
    requires InstrExits(cx, p, Frame(f, b, j, iters), s'.addr, cur)
    requires links == if j == 0 then {} else set x | x in port0.exits :: (x.1, cur.entry)
    requires forall r: nat, s: nat :: Edge(fwd, r, s) <==> Edge(s'.fwd, r, s) || (r, s) in links
    ensures LaidOut(cx, s'.addr, fwd, lo, |s'.nodes|, p, f, Chain(b, j + 1), iters)
    ensures j > 0 ==> EntryOk(cx, s'.addr, lo, |s'.nodes|, p, Frame(f, b, 0, iters), port0.entry)
    ensures forall x :: x in cur.exits ==> lo <= x.1 < |s'.nodes|
    ensures LeaveRefs(cx, s'.addr, lo, |s'.nodes|, p, j, set x | x in cur.exits :: x.1)
    ensures j + 1 == |cx.prog[f].code[b]| ==> BlockExitsOk(cx, s'.addr, lo, |s'.nodes|, p, f, b, cur.exits)
  {
    hide ConfigOk, Wired, LeaveRefs, Enter, BlockExitsOk, Inlined, IsExitBlock, AllFramesOk, Live, Leaves, InPart,
         StepIn;
    var refs := set x | x in port0.exits :: x.1;
    var mid, hi := |s.nodes|, |s'.nodes|;
    assert forall e :: e in links <==> j > 0 && e.0 in refs && e.1 == cur.entry;
    ChainGrows(cx, s.addr, s'.addr, s.fwd, s'.fwd, fwd, lo, mid, hi, p, f, b, j, iters, refs, cur.entry, links);
    LaidOutKept(cx, s.addr, s'.addr, s.fwd, s'.fwd, lo, mid, p, f, Chain(b, j), iters);
    InstrRefs(cx, s'.addr, s'.fwd, s'.fwd, lo, mid, hi, p, f, b, j, iters, cur.exits);
    LastExits(cx, s'.addr, fwd, lo, hi, p, f, b, j, iters, cur);
  }

  lemma KeptSelf(s: Snapshot)
    requires forall r: nat :: r < |s.nodes| ==> r in s.fwd
    ensures Kept(|s.nodes|, s, s)
  {
  }

  lemma NothingLaidOut(cx: Config, addr: seq<Addr>, fwd: map<nat, set<nat>>, p: Addr, f: FuncName, l: Loop,
                       iters: seq<nat>)
    requires ConfigOk(cx) && f in cx.prog
    ensures PartsOk(cx, addr, fwd, |addr|, |addr|, p, f, l, iters, [], map[])
  {
    var none: map<Block, Port> := map[];
    assert none.Keys == {};
    EmptyPart(cx, addr, fwd, p, f, Parts(l, 0, {}), iters);
  }

  lemma LoopBlocksKnown(cx: Config, f: FuncName, l: Loop)
    requires ConfigOk(cx) && LoopOf(cx, f, l)
    ensures l.blocks <= cx.prog[f].code.Keys && l.blocks <= cx.prog[f].succs.Keys
  {
    assert Reducible(cx.prog[f]);
    var rank :| WellFormed(cx.prog[f], rank);
    var rank' :| WellNested(cx.prog[f], rank', l);
  }

  /** An entry laid out after `s` has no edges from the nodes of `s`. */
  lemma NewHeader(s: Snapshot, s': Snapshot, entry: NodeRef)
    requires Kept(|s.nodes|, s, s') && entry >= |s.nodes|
    requires forall r: nat, t: nat :: Edge(s.fwd, r, t) ==> t < |s.nodes|
    ensures forall r: nat :: r < |s.nodes| ==> !Edge(s'.fwd, r, entry)
  {
    forall r: nat | r < |s.nodes|
      ensures !Edge(s'.fwd, r, entry)
    {
      assert Edge(s'.fwd, r, entry) ==> Edge(s.fwd, r, entry);
    }
  }

  lemma GlueInRange(cx: Config, addr: seq<Addr>, fwd: map<nat, set<nat>>, lo: nat, hi: nat, p: Addr, f: FuncName,
                    l: Loop, iters: seq<nat>, entries: seq<NodeRef>, continuations: seq<set<NodeRef>>,
                    exits: set<(Block, NodeRef)>)
    requires ConfigOk(cx) && |entries| == cx.k + 1
    requires RoundsOk(cx, addr, fwd, lo, hi, p, f, l, iters, entries, continuations, exits)
    ensures forall e :: e in GlueEdges(cx.k, entries, continuations) ==> lo <= e.0 < hi && lo <= e.1 < hi
  {
    hide ConfigOk, LaidOut, ExitsOk, BackFrom;
    forall e | e in GlueEdges(cx.k, entries, continuations)
      ensures lo <= e.0 < hi && lo <= e.1 < hi
    {
      var m, c :| 0 <= m < cx.k && c in continuations[m] && e == (c, entries[m + 1]);
      assert BackRefs(cx, addr, lo, hi, p, f, l, iters, m, continuations[m]);
      assert EntryOk(cx, addr, lo, hi, p, HeaderFrame(f, l, iters + [m + 1]), entries[m + 1]);
    }
  }

  lemma ExitingFacts(cx: Config, f: FuncName, l: Loop)
    requires LoopOf(cx, f, l)
    ensures ExitSet(cx, f, l, ExitingBlocks(cx.prog[f], l))
  {
    forall b | b in ExitingBlocks(cx.prog[f], l) && SubIndex(l.subs, b) >= 0
      ensures Exiting(cx.prog[f], l.subs[SubIndex(l.subs, b)], b)
    {
      SubOk(cx, f, l, SubIndex(l.subs, b));
    }
  }

  lemma SubBlocks(cx: Config, f: FuncName, l: Loop)
    requires LoopOf(cx, f, l)
    ensures forall b :: SubIndex(l.subs, b) >= 0 ==> b in l.blocks
  {
    forall b | SubIndex(l.subs, b) >= 0
      ensures b in l.blocks
    {
      SubOk(cx, f, l, SubIndex(l.subs, b));
    }
  }

  /** `a` is where the outermost activation returns. */
  ghost predicate Returned(cx: Config, a: Addr) {
    |a| == 1 && FrameOk(cx, a[0]) && AtExit(cx, a[0])
  }

  /** Nodes 2 and up are, one to one, the positions of `f`'s machine, their edges are
      exactly its steps, node 0 leads to its start and its returns lead to node 1. */
  ghost predicate UnrolledGraph(cx: Config, f: FuncName, addr: seq<Addr>, fwd: map<nat, set<nat>>)
    requires ConfigOk(cx)
  {
    && f in cx.prog
    && |addr| >= 2
    && Covers(cx, addr, 2, |addr|, [], f, Body(cx.prog[f].root), [])
    && FrameOk(cx, StartOf(cx, f))
    && (forall r: nat, s: nat :: 2 <= r && 2 <= s ==>
          (Edge(fwd, r, s) <==> r < |addr| && s < |addr| && Step(cx, addr[r], addr[s])))
    && (forall s: nat :: Edge(fwd, 0, s) <==> 2 <= s < |addr| && addr[s] == Enter(cx, [], StartOf(cx, f)))
    && (forall r: nat :: Edge(fwd, r, 1) <==> 2 <= r < |addr| && Returned(cx, addr[r]))
    && (forall s: nat :: !Edge(fwd, 1, s) && !Edge(fwd, s, 0))
  }

  /** In the outermost activation the part's steps are the machine's steps. */
  lemma OutermostSteps(cx: Config, f: FuncName, a: Addr, b: Addr)
    requires ConfigOk(cx) && f in cx.prog && InPart(cx, [], f, Body(cx.prog[f].root), [], a)
    ensures StepIn(cx, [], Body(cx.prog[f].root), [], a, b) <==> Step(cx, a, b)
  {
    assert a[..0] == [];
  }

  lemma OutermostExits(cx: Config, f: FuncName, addr: seq<Addr>, fwd: map<nat, set<nat>>, hi: nat,
                       exits: set<(Block, NodeRef)>, r: nat)
    requires ConfigOk(cx) && f in cx.prog && 2 <= r < hi == |addr|
    requires LaidOut(cx, addr, fwd, 2, hi, [], f, Body(cx.prog[f].root), [])
    requires ExitsOk(cx, addr, 2, hi, [], exits, ExitBlocks(cx.prog[f]))
    requires forall x :: x in exits ==> x.0 in ExitBlocks(cx.prog[f])
    ensures (exists x :: x in exits && x.1 == r) <==> Returned(cx, addr[r])
  {
    hide ConfigOk, Wired;
    assert InPart(cx, [], f, Body(cx.prog[f].root), [], addr[r]);
    if Returned(cx, addr[r]) {
      assert Ends(cx, [], addr[r], addr[r][0].block);
      assert (addr[r][0].block, r) in exits;
    }
    if x :| x in exits && x.1 == r {
      assert Ends(cx, [], addr[r], x.0);
    }
  }

  lemma InnerEdges(cx: Config, f: FuncName, s: Snapshot, s': Snapshot, r: nat, t: nat)
    requires ConfigOk(cx) && f in cx.prog && |s.nodes| == 2 && |s'.addr| == |s'.nodes| && Kept(2, s, s')
    requires s.fwd[0] == {} && s.fwd[1] == {}
    requires LaidOut(cx, s'.addr, s'.fwd, 2, |s'.nodes|, [], f, Body(cx.prog[f].root), [])
    requires forall r: nat :: r in s'.fwd ==> r < |s'.nodes|
    ensures Edge(s'.fwd, r, t) <==> 2 <= r < |s'.nodes| && 2 <= t < |s'.nodes| && Step(cx, s'.addr[r], s'.addr[t])
  {
    hide ConfigOk, Step, StepIn, InPart;
    if 2 <= r < |s'.nodes| && 2 <= t < |s'.nodes| {
      OutermostSteps(cx, f, s'.addr[r], s'.addr[t]);
    }
  }

  lemma FunctionGraph(cx: Config, f: FuncName, s: Snapshot, s': Snapshot, fwd: map<nat, set<nat>>, port: Port,
                      links: set<(NodeRef, NodeRef)>)
    requires ConfigOk(cx) && f in cx.prog && |s.nodes| == 2 && |s'.addr| == |s'.nodes| && Kept(2, s, s')
    requires s.fwd[0] == {} && s.fwd[1] == {}
    requires LaidOut(cx, s'.addr, s'.fwd, 2, |s'.nodes|, [], f, Body(cx.prog[f].root), [])
    requires EntryOk(cx, s'.addr, 2, |s'.nodes|, [], StartOf(cx, f), port.entry)
    requires ExitsOk(cx, s'.addr, 2, |s'.nodes|, [], port.exits, ExitBlocks(cx.prog[f]))
    requires forall x :: x in port.exits ==> x.0 in ExitBlocks(cx.prog[f])
    requires forall r: nat :: r in s'.fwd ==> r < |s'.nodes|
    requires links == {(0, port.entry)} + set x | x in port.exits :: (x.1, 1)
    requires forall r: nat, t: nat :: Edge(fwd, r, t) <==> Edge(s'.fwd, r, t) || (r, t) in links
    ensures UnrolledGraph(cx, f, s'.addr, fwd)
  {
    hide ConfigOk, Step, Wired, InPart, Enter, Returned, FrameOk, Ends, ExitBlocks, Kept;
    var hi := |s'.nodes|;
    forall r: nat, t: nat
      ensures Edge(fwd, r, t) <==>
              || (2 <= r < hi && 2 <= t < hi && Step(cx, s'.addr[r], s'.addr[t]))
              || (r == 0 && 2 <= t < hi && s'.addr[t] == Enter(cx, [], StartOf(cx, f)))
              || (t == 1 && 2 <= r < hi && Returned(cx, s'.addr[r]))
    {
      InnerEdges(cx, f, s, s', r, t);
      if 2 <= t < hi {
        assert s'.addr[t] == s'.addr[port.entry] <==> t == port.entry;
      }
      LinkShape(links, port, r, t);
      if 2 <= r < hi {
        OutermostExits(cx, f, s'.addr, s'.fwd, hi, port.exits, r);
      } else if x :| x in port.exits && x.1 == r {
        assert false;
      }
    }
    FunctionGraphShape(cx, f, s'.addr, fwd);
  }

  lemma LinkShape(links: set<(NodeRef, NodeRef)>, port: Port, r: nat, t: nat)
    requires links == {(0, port.entry)} + set x | x in port.exits :: (x.1, 1)
    ensures (r, t) in links <==> (r == 0 && t == port.entry) || (t == 1 && exists x :: x in port.exits && x.1 == r)
  {
  }

  lemma FunctionGraphShape(cx: Config, f: FuncName, addr: seq<Addr>, fwd: map<nat, set<nat>>)
    requires ConfigOk(cx) && f in cx.prog && |addr| >= 2 && FrameOk(cx, StartOf(cx, f))
    requires Covers(cx, addr, 2, |addr|, [], f, Body(cx.prog[f].root), [])
    requires forall r: nat, t: nat :: Edge(fwd, r, t) <==>
               || (2 <= r < |addr| && 2 <= t < |addr| && Step(cx, addr[r], addr[t]))
               || (r == 0 && 2 <= t < |addr| && addr[t] == Enter(cx, [], StartOf(cx, f)))
               || (t == 1 && 2 <= r < |addr| && Returned(cx, addr[r]))
    ensures UnrolledGraph(cx, f, addr, fwd)
  {
    hide ConfigOk, Step, Covers, Enter, Returned;
  }

  lemma LastExits(cx: Config, addr: seq<Addr>, fwd: map<nat, set<nat>>, lo: nat, hi: nat, p: Addr, f: FuncName,
                  b: Block, j: nat, iters: seq<nat>, port: Port)
    requires ConfigOk(cx) && FrameOk(cx, Frame(f, b, j, iters))
    requires LaidOut(cx, addr, fwd, lo, hi, p, f, Chain(b, j + 1), iters) && lo <= port.entry < hi
    requires forall x :: x in port.exits ==> lo <= x.1 < hi
    requires InstrExits(cx, p, Frame(f, b, j, iters), addr, port)
    ensures j + 1 == |cx.prog[f].code[b]| ==> BlockExitsOk(cx, addr, lo, hi, p, f, b, port.exits)
  {
    hide InPart, StepIn, ConfigOk;
    CodeFacts(cx, f, b);
    if j + 1 == |cx.prog[f].code[b]| {
      if Inlined(cx, p, Frame(f, b, j, iters)) {
        GoesOn(cx, f, b);
        CallEnds(cx, addr, lo, hi, p, f, b, j, iters);
      } else {
        ChainEnds(cx, addr, lo, hi, p, f, b, j + 1, iters, port.entry);
      }
    }
  }

  /** Where a block ends with an inlined call, no node of its own is its end. */
  lemma CallEnds(cx: Config, addr: seq<Addr>, lo: nat, hi: nat, p: Addr, f: FuncName, b: Block, j: nat, iters: seq<nat>)
    requires FrameOk(cx, Frame(f, b, j, iters)) && Inlined(cx, p, Frame(f, b, j, iters))
    requires j + 1 == |cx.prog[f].code[b]|
    requires Covers(cx, addr, lo, hi, p, f, Chain(b, j + 1), iters)
    ensures forall r: nat :: lo <= r < hi ==> !Ends(cx, p, addr[r], b)
  {
    forall r: nat | lo <= r < hi
      ensures !Ends(cx, p, addr[r], b)
    {
      assert InPart(cx, p, f, Chain(b, j + 1), iters, addr[r]);
      if addr[r][|p|].idx == j {
        assert addr[r][|p|] == Frame(f, b, j, iters);
        EndIsTop(cx, p, f, addr[r]);
      }
    }
  }

  lemma NoEdgesYet(fwd: map<NodeRef, set<NodeRef>>, rev: map<NodeRef, set<NodeRef>>, ref: NodeRef,
                   fwd': map<NodeRef, set<NodeRef>>, rev': map<NodeRef, set<NodeRef>>)
    requires ref !in fwd && ref !in rev && forall r: nat, s: nat :: Edge(fwd, r, s) <==> Edge(rev, s, r)
    requires fwd' == fwd[ref := {}] && rev' == rev[ref := {}]
    ensures forall r: nat, s: nat :: Edge(fwd', r, s) <==> Edge(rev', s, r)
  {
    forall r: nat, s: nat
      ensures Edge(fwd', r, s) <==> Edge(rev', s, r)
    {
      assert Edge(fwd, r, s) <==> Edge(rev, s, r);
    }
  }

  lemma EntryInRange(cx: Config, addr: seq<Addr>, lo: nat, hi: nat, p: Addr, fr: Frame, entry: NodeRef)
    requires hi <= |addr| && ConfigOk(cx) && EntryOk(cx, addr, lo, hi, p, fr, entry)
    ensures lo <= entry < hi
  {
  }

  /** The entry of an inlined activation bears the activation's identifier. */
  lemma FirstNode(cx: Config, s: Snapshot, s': Snapshot, p: Addr, fr: Frame, entry: NodeRef)
    requires ConfigOk(cx) && FrameOk(cx, fr) && Inlined(cx, p, fr) && Kept(|s.nodes|, s, s') && |s'.addr| == |s'.nodes|
    requires EntryOk(cx, s'.addr, |s.nodes|, |s'.nodes|, p + [fr], StartOf(cx, Callee(cx, fr)), entry)
    requires s'.nodes[entry].Inst?
    ensures SeenFunc(s'.nodes, s'.addr, s.idFunc, FirstOf(cx, p + [fr]))
  {
    assert (p + [fr])[..|p + [fr]| - 1] == p;
  }

  /** The entry of a copy of a loop body bears the copy's identifier. */
  lemma HeaderNode(cx: Config, s: Snapshot, s': Snapshot, p: Addr, f: FuncName, l: Loop, iters: seq<nat>,
                   entry: NodeRef)
    requires ConfigOk(cx) && Kept(|s.nodes|, s, s') && |s'.addr| == |s'.nodes|
    requires EntryOk(cx, s'.addr, |s.nodes|, |s'.nodes|, p, HeaderFrame(f, l, iters), entry)
    requires s'.nodes[entry].Inst?
    ensures SeenLoop(s'.nodes, s'.addr, s.idLoop, HeaderOf(cx, InCopy(p, f, l, iters)))
  {
  }

  class Unroller {
    const cx: Config
    var nodes: seq<Node>
    var fwd: map<NodeRef, set<NodeRef>>
    var rev: map<NodeRef, set<NodeRef>>
    var callstack: seq<FuncName>
    var idFunc: seq<nat>
    var idLoop: seq<nat>
    var nextFunc: nat
    var nextLoop: nat
    /** The function identifiers under which parameters have been translated. */
    var translated: set<seq<nat>>
    /** The position each node stands for. */
    ghost var addr: seq<Addr>
    /** The callers of the activation that each function identifier names. */
    ghost var activation: map<seq<nat>, Addr>
    /** The copy of a loop body that each loop identifier names. */
    ghost var copies: map<seq<nat>, Copy>

    ghost predicate GraphOk()
      reads this`addr, this`nodes, this`fwd, this`rev
    {
      && |addr| == |nodes|
      && (forall r: nat :: r in fwd <==> r < |nodes|)
      && (forall r: nat :: r in rev <==> r < |nodes|)
      && (forall r: nat, s: nat :: Edge(fwd, r, s) <==> Edge(rev, s, r))
    }

    ghost predicate IdsOk()
      reads this`idFunc, this`activation, this`translated, this`nextFunc, this`addr, this`nodes
      reads this`idLoop, this`copies, this`nextLoop
    {
      && FuncsOk(cx, nodes, addr, activation, idFunc, nextFunc)
      && LoopsOk(cx, nodes, addr, copies, idLoop, nextLoop)
      && translated <= activation.Keys
      && |addr| == |nodes|
      && (forall r :: 0 <= r < |nodes| ==> Stands(cx, activation, copies, nodes[r], addr[r]))
    }

    ghost predicate Valid()
      ensures Valid() ==> |addr| == |nodes| && idFunc in activation && forall r: nat :: r < |nodes| ==> r in fwd
      reads this`addr, this`nodes, this`fwd, this`rev, this`idFunc, this`activation, this`translated, this`nextFunc
      reads this`idLoop, this`copies, this`nextLoop
    {
      ConfigOk(cx) && GraphOk() && IdsOk()
    }

    ghost function Now(): (s: Snapshot)
      reads this`addr, this`nodes, this`fwd, this`activation, this`copies, this`idFunc, this`idLoop
    {
      Snapshot(nodes, addr, fwd, activation, copies, idFunc, idLoop)
    }

    /** Everything laid out before is kept, and the identifiers in use are restored. */
    twostate predicate Grown()
      reads this
    {
      Kept(|old(nodes)|, old(Now()), Now()) &&
      callstack == old(callstack) && idFunc == old(idFunc) && idLoop == old(idLoop)
    }

    lemma EdgesInGraph()
      requires GraphOk()
      ensures forall r: nat, t: nat :: Edge(fwd, r, t) ==> r < |nodes| && t < |nodes|
      ensures forall r: nat :: r in fwd ==> r < |nodes|
    {
    }

    method AddNode(node: Node, ghost a: Addr) returns (ref: NodeRef)
      requires Valid() && Stands(cx, activation, copies, node, a)
      requires node.Inst? ==> node.func == idFunc && node.loop == idLoop
      modifies this`nodes, this`addr, this`fwd, this`rev
      ensures Valid() && Grown()
      ensures ref == |old(nodes)| && nodes == old(nodes) + [node] && addr == old(addr) + [a]
      ensures fwd == old(fwd)[ref := {}]
    {
      hide ConfigOk, Stands, FuncsOk, LoopsOk;
      ref := |nodes|;
      IdsGrow(cx, nodes, addr, nodes + [node], addr + [a], activation, idFunc, nextFunc, copies, idLoop, nextLoop);
      nodes, addr := nodes + [node], addr + [a];
      fwd, rev := fwd[ref := {}], rev[ref := {}];
      NoEdgesYet(old(fwd), old(rev), ref, fwd, rev);
    }

    method AddEdge(src: NodeRef, dst: NodeRef)
      requires GraphOk() && src < |nodes| && dst < |nodes|
      modifies this`fwd, this`rev
      ensures GraphOk()
      ensures fwd == old(fwd)[src := old(fwd)[src] + {dst}]
    {
      fwd, rev := fwd[src := fwd[src] + {dst}], rev[dst := rev[dst] + {src}];
      forall r: nat, s: nat
        ensures Edge(fwd, r, s) <==> Edge(rev, s, r)
      {
        assert old(Edge(fwd, r, s)) <==> old(Edge(rev, s, r));
      }
    }

    method AddEdges(links: set<(NodeRef, NodeRef)>)
      requires GraphOk() && forall e :: e in links ==> e.0 < |nodes| && e.1 < |nodes|
      modifies this`fwd, this`rev
      ensures GraphOk()
      ensures forall r: nat, s: nat :: Edge(fwd, r, s) <==> old(Edge(fwd, r, s)) || (r, s) in links
    {
      var todo := links;
      while todo != {}
        invariant GraphOk() && todo <= links
        invariant forall r: nat, s: nat :: Edge(fwd, r, s) <==> old(Edge(fwd, r, s)) || (r, s) in links - todo
      {
        var e :| e in todo;
        AddEdge(e.0, e.1);
        todo := todo - {e};
      }
    }

    /** Add edges that do not leave the first `lo` nodes. */
    method Connect(links: set<(NodeRef, NodeRef)>, ghost lo: nat)
      requires Valid() && lo <= |nodes| && forall e :: e in links ==> lo <= e.0 < |nodes| && e.1 < |nodes|
      modifies this`fwd, this`rev
      ensures Valid() && Kept(lo, old(Now()), Now())
      ensures forall r: nat, s: nat :: Edge(fwd, r, s) <==> old(Edge(fwd, r, s)) || (r, s) in links
    {
      hide ConfigOk, IdsOk;
      AddEdges(links);
      OutEdgesKept(old(fwd), fwd, links, lo);
    }

    method EraseEdge(src: NodeRef, dst: NodeRef)
      requires GraphOk() && src < |nodes| && dst < |nodes|
      modifies this`fwd, this`rev
      ensures GraphOk()
      ensures fwd == old(fwd)[src := old(fwd)[src] - {dst}]
    {
      fwd, rev := fwd[src := fwd[src] - {dst}], rev[dst := rev[dst] - {src}];
      forall r: nat, s: nat
        ensures Edge(fwd, r, s) <==> Edge(rev, s, r)
      {
        assert old(Edge(fwd, r, s)) <==> old(Edge(rev, s, r));
      }
    }

    /** Cut every edge into `header`, and say where they came from. */
    method CutEdgesInto(header: NodeRef) returns (continuations: set<NodeRef>)
      requires GraphOk() && header < |nodes|
      modifies this`fwd, this`rev
      ensures GraphOk()
      ensures forall r: nat :: r in continuations <==> old(Edge(fwd, r, header))
      ensures forall r: nat, s: nat :: Edge(fwd, r, s) <==> old(Edge(fwd, r, s)) && s != header
    {
      continuations := rev[header];
      var todo := continuations;
      assert forall r: nat :: r in continuations <==> Edge(fwd, r, header);
      while todo != {}
        invariant GraphOk() && todo <= continuations
        invariant forall r: nat, s: nat :: Edge(fwd, r, s) <==> old(Edge(fwd, r, s)) && (s != header || r in todo)
      {
        var c :| c in todo;
        assert Edge(fwd, c, header);
        ghost var before := fwd;
        EraseEdge(c, header);
        todo := todo - {c};
        forall r: nat, s: nat
          ensures Edge(fwd, r, s) <==> old(Edge(fwd, r, s)) && (s != header || r in todo)
        {
          assert Edge(before, r, s) <==> old(Edge(fwd, r, s)) && (s != header || r == c || r in todo);
        }
      }
    }

    // -------------------------------------------------------------- construction

    /** An activation of `f` with callers `p` is being laid out, in it blocks of `l`. */
    ghost predicate Ready(p: Addr, f: FuncName, l: Loop, iters: seq<nat>)
      reads this
    {
      && Valid()
      && AllFramesOk(cx, p)
      && f in cx.prog
      && callstack == Names(p) + [f]
      && activation[idFunc] == p
      && Placed(cx, copies, idLoop, p, f, l, iters)
    }

    ghost function Budget(p: Addr, f: FuncName): nat {
      Room(cx.prog.Keys, cx.limit, Names(p) + [f])
    }

    lemma CallShrinksBudget(p: Addr, fr: Frame)
      requires FrameOk(cx, fr) && Inlined(cx, p, fr)
      ensures Budget(p + [fr], Callee(cx, fr)) < Budget(p, fr.fn)
    {
      assert Names(p + [fr]) == Names(p) + [fr.fn];
      RoomShrinks(cx.prog.Keys, cx.limit, Names(p) + [fr.fn], Callee(cx, fr));
    }

    method ConstructInstruction(f: FuncName, b: Block, j: nat, ghost p: Addr, ghost iters: seq<nat>, ghost within: Loop)
      returns (port: Port)
      requires Ready(p, f, within, iters) && FrameOk(cx, Frame(f, b, j, iters)) && b in PlainBlocks(within)
      modifies this
      ensures Ready(p, f, within, iters) && Grown()
      ensures LaidOut(cx, addr, fwd, |old(nodes)|, |nodes|, p, f, OneInstr(b, j), iters)
      ensures EntryOk(cx, addr, |old(nodes)|, |nodes|, p, Frame(f, b, j, iters), port.entry)
      ensures forall x :: x in port.exits ==> |old(nodes)| <= x.1 < |nodes|
      ensures forall r: nat :: |old(nodes)| <= r < |nodes| ==>
                (Leaves(cx, p, addr[r]) <==> exists x :: x in port.exits && x.1 == r)
      ensures InstrExits(cx, p, Frame(f, b, j, iters), addr, port)
      decreases Budget(p, f), within, 0, 1
    {
      hide ConfigOk, LaidOut, Leaves, GraphOk, IdsOk, Live, CopyOf, Placed;
      var ins := cx.prog[f].code[b][j];
      ghost var fr := Frame(f, b, j, iters);
      assert Names(p + [fr]) == Names(p) + [f];
      if ins.Call? && ins.callee in cx.prog && Count(callstack, ins.callee) <= cx.limit {
        port := ConstructCall(f, b, j, p, iters, within);
        return;
      }
      assert (p + [fr])[..|p + [fr]| - 1] == p;
      PlacedInside(cx, copies, idLoop, p, f, within, iters, fr);
      ValidIds();
      var ref := AddNode(Inst(f, b, j, idFunc, idLoop), p + [fr]);
      port := Port(ref, {(b, ref)});
      PlainPart(cx, addr, fwd, ref, p, fr);
    }

    method ConstructCall(f: FuncName, b: Block, j: nat, ghost p: Addr, ghost iters: seq<nat>, ghost within: Loop)
      returns (port: Port)
      requires Ready(p, f, within, iters) && FrameOk(cx, Frame(f, b, j, iters)) && b in PlainBlocks(within)
      requires Inlined(cx, p, Frame(f, b, j, iters))
      modifies this
      ensures Ready(p, f, within, iters) && Grown()
      ensures LaidOut(cx, addr, fwd, |old(nodes)|, |nodes|, p, f, OneInstr(b, j), iters)
      ensures EntryOk(cx, addr, |old(nodes)|, |nodes|, p, Frame(f, b, j, iters), port.entry)
      ensures forall x :: x in port.exits ==> |old(nodes)| <= x.1 < |nodes|
      ensures forall r: nat :: |old(nodes)| <= r < |nodes| ==>
                (Leaves(cx, p, addr[r]) <==> exists x :: x in port.exits && x.1 == r)
      ensures InstrExits(cx, p, Frame(f, b, j, iters), addr, port)
      decreases Budget(p, f), within, 0, 0
    {
      hide ConfigOk, LaidOut, Enter, ExitsOk, EntryOk, Leaves, ExitBlocks, Live, GraphOk, IdsOk, Placed, CopyOf;
      ghost var fr := Frame(f, b, j, iters);
      PlacedInside(cx, copies, idLoop, p, f, within, iters, fr);
      ValidIds();
      PlacedCallee(cx, copies, idLoop, p + [fr], Callee(cx, fr));
      assert Names(p + [fr]) == Names(p) + [f];
      CallShrinksBudget(p, fr);
      port := ConstructCallee(cx.prog[f].code[b][j].callee, p, fr);
      CallPart(cx, addr, fwd, |old(nodes)|, |nodes|, p, fr, port);
      PlacedStill(cx, old(copies), copies, idLoop, p, f, within, iters);
    }

    /** Lay out the activation that `fr` calls under an identifier of its own. */
    method ConstructCallee(g: FuncName, ghost p: Addr, ghost fr: Frame) returns (port: Port)
      requires Valid() && AllFramesOk(cx, p + [fr]) && callstack == Names(p + [fr]) && activation[idFunc] == p
      requires FrameOk(cx, fr) && Inlined(cx, p, fr) && g == Callee(cx, fr)
      requires Placed(cx, copies, idLoop, p + [fr], g, cx.prog[g].root, [])
      modifies this
      ensures Valid() && Grown() && activation[idFunc] == p
      ensures LaidOut(cx, addr, fwd, |old(nodes)|, |nodes|, p + [fr], g, Body(cx.prog[g].root), [])
      ensures EntryOk(cx, addr, |old(nodes)|, |nodes|, p + [fr], StartOf(cx, g), port.entry)
      ensures ExitsOk(cx, addr, |old(nodes)|, |nodes|, p + [fr], port.exits, ExitBlocks(cx.prog[g]))
      ensures forall x :: x in port.exits ==> x.0 in ExitBlocks(cx.prog[g])
      decreases Budget(p + [fr], g), cx.prog[g].root, 3, 0
    {
      hide ConfigOk, LaidOut, Enter, ExitsOk, EntryOk, ExitBlocks, GraphOk, IdsOk, Placed, FirstOf, CopyOf, SeenFunc,
           AllFramesOk, FrameOk;
      BeginActivation(p, fr);
      ghost var begun := Now();
      port := ConstructFunction(g, p + [fr]);
      EntryIsInst(p + [fr], StartOf(cx, g), |begun.nodes|, port.entry);
      FirstNode(cx, begun, Now(), p, fr, port.entry);
      EndActivation(p, old(idFunc));
      KeptTrans(|old(nodes)|, old(Now()), begun, |old(nodes)|, Now());
    }

    /** Give the activation that `fr` calls a function identifier of its own. */
    method BeginActivation(ghost p: Addr, ghost fr: Frame)
      requires Valid() && activation[idFunc] == p
      modifies this`idFunc, this`nextFunc, this`translated, this`activation
      ensures Valid()
      ensures idFunc == old(idFunc) + [old(nextFunc)] && nextFunc == old(nextFunc) + 1
      ensures idFunc !in old(translated) && idFunc !in old(activation)
      ensures old(idFunc) in activation && activation[old(idFunc)] == p
      ensures translated == old(translated) + {idFunc}
      ensures activation == old(activation)[idFunc := p + [fr]] && Kept(|nodes|, old(Now()), Now())
    {
      hide ConfigOk, Stands, LoopsOk, FirstOf, SeenFunc;
      FuncBegun(cx, nodes, addr, activation, idFunc, nextFunc, p + [fr]);
      idFunc, nextFunc := idFunc + [nextFunc], nextFunc + 1;
      assert idFunc[|idFunc| - 1] == old(nextFunc);
      translated := translated + {idFunc};
      activation := activation[idFunc := p + [fr]];
      AllStandStill(cx, old(activation), copies, activation, copies, nodes, addr);
    }

    method EndActivation(ghost p: Addr, ghost outer: seq<nat>)
      requires Valid() && |idFunc| > 0 && idFunc[..|idFunc| - 1] == outer && outer in activation
      requires activation[outer] == p && SeenFunc(nodes, addr, idFunc, FirstOf(cx, activation[idFunc]))
      modifies this`idFunc
      ensures Valid() && idFunc == outer && activation[idFunc] == p
    {
      hide ConfigOk, Stands, FuncsOk, LoopsOk, FirstOf, SeenFunc;
      FuncEnded(cx, nodes, addr, activation, idFunc, nextFunc);
      idFunc := idFunc[..|idFunc| - 1];
    }

    method ConstructFunction(f: FuncName, ghost p: Addr) returns (port: Port)
      requires Valid() && AllFramesOk(cx, p) && f in cx.prog && callstack == Names(p) && activation[idFunc] == p
      requires Placed(cx, copies, idLoop, p, f, cx.prog[f].root, [])
      modifies this
      ensures Valid() && Grown() && activation[idFunc] == p
      ensures LaidOut(cx, addr, fwd, |old(nodes)|, |nodes|, p, f, Body(cx.prog[f].root), [])
      ensures EntryOk(cx, addr, |old(nodes)|, |nodes|, p, StartOf(cx, f), port.entry)
      ensures ExitsOk(cx, addr, |old(nodes)|, |nodes|, p, port.exits, ExitBlocks(cx.prog[f]))
      ensures forall x :: x in port.exits ==> x.0 in ExitBlocks(cx.prog[f])
      decreases Budget(p, f), cx.prog[f].root, 2, 0
    {
      hide ConfigOk, LaidOut, EntryOk, GraphOk, IdsOk, Kept, ExitBlocks, Placed;
      callstack := callstack + [f];
      RootFacts(cx, f);
      port := ConstructLoopForest(f, cx.prog[f].root, ExitBlocks(cx.prog[f]), p, []);
      callstack := callstack[..|callstack| - 1];
    }

    method ConstructBlock(f: FuncName, b: Block, ghost p: Addr, ghost iters: seq<nat>, ghost within: Loop)
      returns (port: Port)
      requires Ready(p, f, within, iters) && b in cx.prog[f].code && b in cx.prog[f].succs && b in PlainBlocks(within)
      modifies this
      ensures Ready(p, f, within, iters) && Grown()
      ensures LaidOut(cx, addr, fwd, |old(nodes)|, |nodes|, p, f, Chain(b, |cx.prog[f].code[b]|), iters)
      ensures Live(cx, f, b) ==> EntryOk(cx, addr, |old(nodes)|, |nodes|, p, Frame(f, b, 0, iters), port.entry)
      ensures BlockExitsOk(cx, addr, |old(nodes)|, |nodes|, p, f, b, port.exits)
      decreases Budget(p, f), within, 0, 3
    {
      hide ConfigOk, LaidOut, LeaveRefs, BlockExitsOk, GraphOk, IdsOk, Kept, EntryOk, AllFramesOk, FrameOk, Placed;
      var fn := cx.prog[f];
      ghost var lo, start := |nodes|, Now();
      CodeFacts(cx, f, b);
      KeptSelf(start);
      port := Port(0, {});
      if !HasPredecessor(fn, b) && b != fn.root.header {
        DeadBlock(cx, addr, fwd, p, f, b, iters);
        return;
      }
      EmptyPart(cx, addr, fwd, p, f, Chain(b, 0), iters);
      var j := 0;
      while j < |fn.code[b]|
        invariant j <= |fn.code[b]| && lo <= |nodes|
        invariant Ready(p, f, within, iters) && Kept(lo, start, Now())
        invariant callstack == old(callstack) && idFunc == old(idFunc) && idLoop == old(idLoop)
        invariant LaidOut(cx, addr, fwd, lo, |nodes|, p, f, Chain(b, j), iters)
        invariant j > 0 ==> EntryOk(cx, addr, lo, |nodes|, p, Frame(f, b, 0, iters), port.entry)
        invariant forall x :: x in port.exits ==> lo <= x.1 < |nodes|
        invariant j > 0 ==> LeaveRefs(cx, addr, lo, |nodes|, p, j - 1, set x | x in port.exits :: x.1)
        invariant j == |fn.code[b]| ==> BlockExitsOk(cx, addr, lo, |nodes|, p, f, b, port.exits)
      {
        ghost var before := Now();
        port := AppendInstruction(f, b, j, port, lo, p, iters, within);
        KeptTrans(lo, start, before, lo, Now());
        j := j + 1;
      }
    }

    /** Lay out instruction `j` of the block after the first `j` and connect it to its predecessor. */
    method AppendInstruction(f: FuncName, b: Block, j: nat, port0: Port, ghost lo: nat, ghost p: Addr,
                             ghost iters: seq<nat>, ghost within: Loop)
      returns (port: Port)
      requires Ready(p, f, within, iters) && lo <= |nodes| && FrameOk(cx, Frame(f, b, j, iters))
      requires b in PlainBlocks(within)
      requires LaidOut(cx, addr, fwd, lo, |nodes|, p, f, Chain(b, j), iters)
      requires j > 0 ==> EntryOk(cx, addr, lo, |nodes|, p, Frame(f, b, 0, iters), port0.entry)
      requires forall x :: x in port0.exits ==> lo <= x.1 < |nodes|
      requires j > 0 ==> LeaveRefs(cx, addr, lo, |nodes|, p, j - 1, set x | x in port0.exits :: x.1)
      modifies this
      ensures Ready(p, f, within, iters) && Kept(lo, old(Now()), Now())
      ensures idFunc == old(idFunc) && idLoop == old(idLoop) && callstack == old(callstack)
      ensures LaidOut(cx, addr, fwd, lo, |nodes|, p, f, Chain(b, j + 1), iters)
      ensures EntryOk(cx, addr, lo, |nodes|, p, Frame(f, b, 0, iters), port.entry)
      ensures forall x :: x in port.exits ==> lo <= x.1 < |nodes|
      ensures LeaveRefs(cx, addr, lo, |nodes|, p, j, set x | x in port.exits :: x.1)
      ensures j + 1 == |cx.prog[f].code[b]| ==> BlockExitsOk(cx, addr, lo, |nodes|, p, f, b, port.exits)
      decreases Budget(p, f), within, 0, 2
    {
      hide ConfigOk, LaidOut, LeaveRefs, Enter, BlockExitsOk, InstrExits, AllFramesOk, Live, GraphOk, IdsOk, Leaves,
           Placed;
      ghost var before := Now();
      var cur := ConstructInstruction(f, b, j, p, iters, within);
      ghost var after := Now();
      var links := if j == 0 then {} else set x | x in port0.exits :: (x.1, cur.entry);
      Connect(links, lo);
      KeptTrans(lo, before, after, lo, Now());
      InstructionAppended(cx, before, after, fwd, lo, p, f, b, j, iters, port0, cur, links);
      port := Port(if j == 0 then cur.entry else port0.entry, cur.exits);
    }

    method ConstructLoopForest(f: FuncName, l: Loop, exits: set<Block>, ghost p: Addr, ghost iters: seq<nat>)
      returns (port: Port)
      requires Ready(p, f, l, iters) && LoopOf(cx, f, l) && (l == cx.prog[f].root || IsLoop(cx.prog[f], l))
      requires ExitSet(cx, f, l, exits)
      modifies this
      ensures Ready(p, f, l, iters) && Grown()
      ensures LaidOut(cx, addr, fwd, |old(nodes)|, |nodes|, p, f, Body(l), iters)
      ensures EntryOk(cx, addr, |old(nodes)|, |nodes|, p, HeaderFrame(f, l, iters), port.entry)
      ensures ExitsOk(cx, addr, |old(nodes)|, |nodes|, p, port.exits, exits)
      ensures forall x :: x in port.exits ==> x.0 in l.blocks || IsExitBlock(cx, x.0)
      ensures exits <= ExitBlocks(cx.prog[f]) ==> forall x :: x in port.exits ==> x.0 in exits
      decreases Budget(p, f), l, 1, 0
    {
      hide ConfigOk, LaidOut, ExitsOk, EntryOk, GraphOk, IdsOk, LoopOf, IsLoop, Kept, AllFramesOk, Links, LoopPortOk,
           BlockPortOk, Exiting, Placed;
      ghost var lo, start := |nodes|, Now();
      var loops: seq<Port> := [];
      var blocks: map<Block, Port> := map[];
      NothingLaidOut(cx, addr, fwd, p, f, l, iters);
      KeptSelf(start);
      while |loops| < |l.subs|
        invariant |loops| <= |l.subs| && lo <= |nodes|
        invariant Ready(p, f, l, iters) && Kept(lo, start, Now())
        invariant callstack == old(callstack) && idFunc == old(idFunc) && idLoop == old(idLoop)
        invariant PartsOk(cx, addr, fwd, lo, |nodes|, p, f, l, iters, loops, map[])
      {
        var sub := AppendLoop(f, l, loops, lo, start, p, iters);
        loops := loops + [sub];
      }
      var todo := set b | b in l.blocks && SubIndex(l.subs, b) < 0;
      while todo != {}
        invariant todo <= PlainBlocks(l) && blocks.Keys == PlainBlocks(l) - todo && |loops| == |l.subs| && lo <= |nodes|
        invariant Ready(p, f, l, iters) && Kept(lo, start, Now())
        invariant callstack == old(callstack) && idFunc == old(idFunc) && idLoop == old(idLoop)
        invariant PartsOk(cx, addr, fwd, lo, |nodes|, p, f, l, iters, loops, blocks)
      {
        var b :| b in todo;
        var sub := AppendBlock(f, l, loops, blocks, b, lo, start, p, iters);
        blocks := blocks[b := sub];
        todo := todo - {b};
      }
      port := FinishBody(f, l, exits, loops, blocks, lo, start, p, iters);
    }

    method AppendLoop(f: FuncName, l: Loop, loops: seq<Port>, ghost lo: nat, ghost start: Snapshot, ghost p: Addr,
                      ghost iters: seq<nat>)
      returns (port: Port)
      requires Ready(p, f, l, iters) && LoopOf(cx, f, l) && |loops| < |l.subs| && lo <= |nodes|
      requires Kept(lo, start, Now())
      requires start.idFunc == idFunc && start.idLoop == idLoop
      requires PartsOk(cx, addr, fwd, lo, |nodes|, p, f, l, iters, loops, map[])
      modifies this
      ensures Ready(p, f, l, iters) && lo <= |nodes| && Kept(lo, start, Now())
      ensures callstack == old(callstack) && idFunc == old(idFunc) && idLoop == old(idLoop)
      ensures PartsOk(cx, addr, fwd, lo, |nodes|, p, f, l, iters, loops + [port], map[])
      decreases Budget(p, f), l, 0, 4
    {
      hide ConfigOk, LaidOut, GraphOk, IdsOk, LoopOf, IsLoop, AllFramesOk, LoopPortOk, BlockPortOk, PartsOk, CopyIn,
           Around;
      ghost var before := Now();
      SubOk(cx, f, l, |loops|);
      AroundSub(cx, f, l, |loops|);
      port := ConstructLoop(f, l.subs[|loops|], l, p, iters);
      LoopAppended(cx, before, Now(), lo, p, f, l, iters, loops, port);
      KeptTrans(lo, start, before, |before.nodes|, Now());
    }

    method AppendBlock(f: FuncName, l: Loop, loops: seq<Port>, blocks: map<Block, Port>, b: Block, ghost lo: nat,
                       ghost start: Snapshot, ghost p: Addr, ghost iters: seq<nat>)
      returns (port: Port)
      requires Ready(p, f, l, iters) && LoopOf(cx, f, l) && |loops| == |l.subs| && lo <= |nodes|
      requires Kept(lo, start, Now())
      requires start.idFunc == idFunc && start.idLoop == idLoop
      requires PartsOk(cx, addr, fwd, lo, |nodes|, p, f, l, iters, loops, blocks)
      requires b in PlainBlocks(l) && b !in blocks && blocks.Keys <= PlainBlocks(l)
      modifies this
      ensures Ready(p, f, l, iters) && lo <= |nodes| && Kept(lo, start, Now())
      ensures callstack == old(callstack) && idFunc == old(idFunc) && idLoop == old(idLoop)
      ensures PartsOk(cx, addr, fwd, lo, |nodes|, p, f, l, iters, loops, blocks[b := port])
      decreases Budget(p, f), l, 0, 4
    {
      hide ConfigOk, GraphOk, IdsOk, LoopOf, AllFramesOk, LoopPortOk, PartsOk, Wired, InPart, Live, Placed;
      ghost var before := Now();
      LoopBlocksKnown(cx, f, l);
      port := ConstructBlock(f, b, p, iters, l);
      ChainBlocks(cx, addr, |old(nodes)|, |nodes|, p, f, b, |cx.prog[f].code[b]|, iters);
      BlockAppended(cx, before, Now(), lo, p, f, l, iters, loops, blocks, b, port);
      KeptTrans(lo, start, before, |before.nodes|, Now());
    }

    /** Connect the components of `l` and collect its port. */
    method FinishBody(f: FuncName, l: Loop, exits: set<Block>, loops: seq<Port>, blocks: map<Block, Port>,
                      ghost lo: nat, ghost start: Snapshot, ghost p: Addr, ghost iters: seq<nat>)
      returns (port: Port)
      requires Ready(p, f, l, iters) && LoopOf(cx, f, l) && (l == cx.prog[f].root || IsLoop(cx.prog[f], l))
      requires ExitSet(cx, f, l, exits)
      requires lo <= |nodes| && Kept(lo, start, Now()) && start.idFunc == idFunc && start.idLoop == idLoop
      requires Complete(cx, addr, fwd, lo, |nodes|, p, f, l, iters, loops, blocks)
      modifies this`fwd, this`rev
      ensures Ready(p, f, l, iters) && Kept(lo, start, Now())
      ensures LaidOut(cx, addr, fwd, lo, |nodes|, p, f, Body(l), iters)
      ensures EntryOk(cx, addr, lo, |nodes|, p, HeaderFrame(f, l, iters), port.entry)
      ensures ExitsOk(cx, addr, lo, |nodes|, p, port.exits, exits)
      ensures forall x :: x in port.exits ==> x.0 in l.blocks || IsExitBlock(cx, x.0)
      ensures exits <= ExitBlocks(cx.prog[f]) ==> forall x :: x in port.exits ==> x.0 in exits
    {
      hide ConfigOk, LaidOut, ExitsOk, EntryOk, GraphOk, IdsOk, LoopOf, IsLoop, AllFramesOk, Links, LoopPortOk,
           BlockPortOk, Exiting, BodyExits, Placed;
      ghost var before := Now();
      var links := Links(cx.prog[f], l, loops, blocks);
      BodyAdded(cx, addr, fwd, lo, |nodes|, p, f, l, iters, loops, blocks);
      Connect(links, lo);
      BodyFinished(cx, addr, before.fwd, fwd, lo, |nodes|, p, f, l, iters, loops, blocks);
      BodyExitsOk(cx, addr, before.fwd, lo, |nodes|, p, f, l, iters, loops, blocks, exits);
      KeptTrans(lo, start, before, lo, Now());
      port := Port(PortOf(l, loops, blocks, l.header).entry, BodyExits(l, loops, blocks, exits));
    }

    method ConstructLoop(f: FuncName, l: Loop, ghost outer: Loop, ghost p: Addr, ghost iters: seq<nat>)
      returns (port: Port)
      requires Ready(p, f, outer, iters) && LoopOf(cx, f, l) && IsLoop(cx.prog[f], l) && Around(cx.prog[f], l)
      modifies this
      ensures Ready(p, f, outer, iters) && Grown()
      ensures LaidOut(cx, addr, fwd, |old(nodes)|, |nodes|, p, f, Unrolled(l), iters)
      ensures LoopPortOk(cx, addr, |old(nodes)|, |nodes|, p, f, l, iters, port)
      decreases Budget(p, f), l, 2, 0
    {
      hide ConfigOk, LaidOut, ExitsOk, EntryOk, GraphOk, IdsOk, LoopOf, IsLoop, Kept, AllFramesOk, LoopPortOk, RoundsOk,
           GlueEdges, Placed, Around;
      ghost var lo, start := |nodes|, Now();
      var entries: seq<NodeRef> := [];
      var continuations: seq<set<NodeRef>> := [];
      var exits: set<(Block, NodeRef)> := {};
      NoRounds(cx, addr, fwd, p, f, l, iters);
      KeptSelf(start);
      while |entries| < cx.k + 1
        invariant |entries| == |continuations| <= cx.k + 1 && lo <= |nodes|
        invariant Ready(p, f, outer, iters) && Kept(lo, start, Now())
        invariant callstack == old(callstack) && idFunc == old(idFunc) && idLoop == old(idLoop)
        invariant RoundsOk(cx, addr, fwd, lo, |nodes|, p, f, l, iters, entries, continuations, exits)
      {
        var port, back := AppendRound(f, l, entries, continuations, exits, lo, start, outer, p, iters);
        entries, continuations, exits := entries + [port.entry], continuations + [back], exits + port.exits;
      }
      ghost var before := Now();
      GlueInRange(cx, addr, fwd, lo, |nodes|, p, f, l, iters, entries, continuations, exits);
      Connect(GlueEdges(cx.k, entries, continuations), lo);
      KeptTrans(lo, start, before, lo, Now());
      LoopFinished(cx, addr, before.fwd, fwd, lo, |nodes|, p, f, l, iters, entries, continuations, exits);
      port := Port(entries[0], exits);
    }

    /** Lay out one more iteration of `l` and cut its edges back to the header. */
    method AppendRound(f: FuncName, l: Loop, entries: seq<NodeRef>, continuations: seq<set<NodeRef>>,
                       exits: set<(Block, NodeRef)>, ghost lo: nat, ghost start: Snapshot, ghost outer: Loop,
                       ghost p: Addr, ghost iters: seq<nat>)
      returns (port: Port, back: set<NodeRef>)
      requires Ready(p, f, outer, iters) && LoopOf(cx, f, l) && IsLoop(cx.prog[f], l) && lo <= |nodes|
      requires Kept(lo, start, Now())
      requires start.idFunc == idFunc && start.idLoop == idLoop && Around(cx.prog[f], l)
      requires RoundsOk(cx, addr, fwd, lo, |nodes|, p, f, l, iters, entries, continuations, exits)
      modifies this
      ensures Ready(p, f, outer, iters) && lo <= |nodes| && Kept(lo, start, Now())
      ensures callstack == old(callstack) && idFunc == old(idFunc) && idLoop == old(idLoop)
      ensures RoundsOk(cx, addr, fwd, lo, |nodes|, p, f, l, iters, entries + [port.entry], continuations + [back],
                       exits + port.exits)
      decreases Budget(p, f), l, 1, 3
    {
      hide ConfigOk, LaidOut, ExitsOk, LoopOf, AllFramesOk, RoundsOk, IsLoop, IdsOk, GraphOk, ExitingBlocks, EntryOk,
           Placed, Around;
      ghost var before := Now();
      ghost var after;
      port, back, after := BuildRound(f, l, outer, p, iters, |entries|);
      RoundAppended(cx, before, after, fwd, lo, p, f, l, iters, entries, continuations, exits, port, back);
      KeptTrans(lo, start, before, |before.nodes|, Now());
    }

    /** Lay out one iteration of `l` and cut its edges back to the header, which are remembered. */
    method BuildRound(f: FuncName, l: Loop, ghost outer: Loop, ghost p: Addr, ghost iters: seq<nat>, ghost m: nat)
      returns (port: Port, back: set<NodeRef>, ghost after: Snapshot)
      requires Ready(p, f, outer, iters) && LoopOf(cx, f, l) && IsLoop(cx.prog[f], l) && Around(cx.prog[f], l)
      modifies this
      ensures Ready(p, f, outer, iters) && callstack == old(callstack) && idFunc == old(idFunc) && idLoop == old(idLoop)
      ensures |addr| == |nodes| && after.addr == addr && after.nodes == nodes
      ensures Kept(|old(nodes)|, old(Now()), after) && Kept(|old(nodes)|, old(Now()), Now())
      ensures LaidOut(cx, addr, after.fwd, |old(nodes)|, |nodes|, p, f, Body(l), iters + [m])
      ensures EntryOk(cx, addr, |old(nodes)|, |nodes|, p, HeaderFrame(f, l, iters + [m]), port.entry)
      ensures ExitsOk(cx, addr, |old(nodes)|, |nodes|, p, port.exits, ExitingBlocks(cx.prog[f], l))
      ensures forall x :: x in port.exits ==> x.0 in l.blocks || IsExitBlock(cx, x.0)
      ensures forall r: nat, t: nat :: Edge(fwd, r, t) <==> Edge(after.fwd, r, t) && t != port.entry
      ensures forall r: nat :: r < |old(nodes)| ==> r in fwd && !Edge(after.fwd, r, port.entry)
      ensures forall r: nat :: r in back <==> Edge(after.fwd, r, port.entry)
      ensures forall r: nat :: r in after.fwd ==> r < |nodes|
      decreases Budget(p, f), l, 1, 2
    {
      hide ConfigOk, LaidOut, ExitsOk, LoopOf, AllFramesOk, IsLoop, IdsOk, GraphOk, Exiting, ExitingBlocks, EntryOk,
           Placed, Around, SeenLoop, HeaderOf;
      ghost var before := Now();
      EdgesInGraph();
      port := LayCopy(f, l, outer, p, iters, m);
      after := Now();
      EntryInRange(cx, addr, |before.nodes|, |nodes|, p, HeaderFrame(f, l, iters + [m]), port.entry);
      NewHeader(before, after, port.entry);
      EdgesInGraph();
      back := CutHeader(port.entry, |before.nodes|);
      EndRound();
      KeptTrans(|before.nodes|, before, after, |before.nodes|, Now());
      PlacedStill(cx, before.copies, copies, idLoop, p, f, outer, iters);
    }

    /** Lay out one copy of `l` under an identifier of its own. */
    method LayCopy(f: FuncName, l: Loop, ghost outer: Loop, ghost p: Addr, ghost iters: seq<nat>, ghost m: nat)
      returns (port: Port)
      requires Ready(p, f, outer, iters) && LoopOf(cx, f, l) && IsLoop(cx.prog[f], l) && Around(cx.prog[f], l)
      modifies this
      ensures Ready(p, f, l, iters + [m]) && callstack == old(callstack) && idFunc == old(idFunc)
      ensures idLoop == old(idLoop) + [old(nextLoop)] && Kept(|old(nodes)|, old(Now()), Now())
      ensures old(idLoop) in copies && idLoop in copies && SeenLoop(nodes, addr, idLoop, HeaderOf(cx, copies[idLoop]))
      ensures LaidOut(cx, addr, fwd, |old(nodes)|, |nodes|, p, f, Body(l), iters + [m])
      ensures EntryOk(cx, addr, |old(nodes)|, |nodes|, p, HeaderFrame(f, l, iters + [m]), port.entry)
      ensures ExitsOk(cx, addr, |old(nodes)|, |nodes|, p, port.exits, ExitingBlocks(cx.prog[f], l))
      ensures forall x :: x in port.exits ==> x.0 in l.blocks || IsExitBlock(cx, x.0)
      decreases Budget(p, f), l, 1, 1
    {
      hide ConfigOk, LaidOut, ExitsOk, LoopOf, AllFramesOk, IsLoop, IdsOk, GraphOk, Exiting, ExitingBlocks, EntryOk,
           Placed, Around, SeenLoop, HeaderOf;
      ghost var before := Now();
      ValidIds();
      BeginRound(f, l, outer, p, iters, m);
      ghost var begun := Now();
      ExitingFacts(cx, f, l);
      port := ConstructLoopForest(f, l, ExitingBlocks(cx.prog[f], l), p, iters + [m]);
      SubBlocks(cx, f, l);
      KeptTrans(|before.nodes|, before, begun, |before.nodes|, Now());
      EntryIsInst(p, HeaderFrame(f, l, iters + [m]), |begun.nodes|, port.entry);
      HeaderNode(cx, begun, Now(), p, f, l, iters + [m], port.entry);
    }

    /** Give the copy of `l` in iteration `m` a loop identifier of its own. */
    method BeginRound(ghost f: FuncName, ghost l: Loop, ghost outer: Loop, ghost p: Addr, ghost iters: seq<nat>,
                      ghost m: nat)
      requires Ready(p, f, outer, iters) && Around(cx.prog[f], l)
      modifies this`idLoop, this`nextLoop, this`copies
      ensures Ready(p, f, l, iters + [m])
      ensures idLoop == old(idLoop) + [old(nextLoop)] && nextLoop == old(nextLoop) + 1 && idLoop !in old(copies)
      ensures copies == old(copies)[idLoop := InCopy(p, f, l, iters + [m])] && Kept(|nodes|, old(Now()), Now())
    {
      hide ConfigOk, Stands, FuncsOk, LoopsOk, CopyOf, HeaderOf, SeenLoop, AllFramesOk, Around, GraphOk;
      NewCopy(cx, copies, idLoop, nextLoop, p, f, outer, l, iters, m);
      ghost var c := InCopy(p, f, l, iters + [m]);
      LoopBegun(cx, nodes, addr, copies, idLoop, nextLoop, c);
      idLoop, nextLoop := idLoop + [nextLoop], nextLoop + 1;
      copies := copies[idLoop := c];
      AllStandStill(cx, activation, old(copies), activation, copies, nodes, addr);
    }

    method EndRound()
      requires Valid() && |idLoop| > 0 && idLoop[..|idLoop| - 1] in copies && idLoop in copies
      requires SeenLoop(nodes, addr, idLoop, HeaderOf(cx, copies[idLoop]))
      modifies this`idLoop
      ensures Valid() && idLoop == old(idLoop)[..|old(idLoop)| - 1]
    {
      hide ConfigOk, Stands, FuncsOk, LoopsOk, HeaderOf, SeenLoop;
      LoopEnded(cx, nodes, addr, copies, idLoop, nextLoop);
      idLoop := idLoop[..|idLoop| - 1];
    }

    /** Cut the edges into `header` when none of them leaves the first `lo` nodes. */
    method CutHeader(header: NodeRef, ghost lo: nat) returns (back: set<NodeRef>)
      requires Valid() && header < |nodes| && lo <= |nodes| && forall r: nat :: r < lo ==> !Edge(fwd, r, header)
      modifies this`fwd, this`rev
      ensures Valid() && Kept(lo, old(Now()), Now())
      ensures forall r: nat :: r in back <==> old(Edge(fwd, r, header))
      ensures forall r: nat, s: nat :: Edge(fwd, r, s) <==> old(Edge(fwd, r, s)) && s != header
    {
      hide ConfigOk, IdsOk;
      back := CutEdgesInto(header);
      RoundKept(old(fwd), old(fwd), fwd, lo, header);
    }

    // -------------------------------------------------------------- the whole graph

    constructor (cx: Config)
      requires ConfigOk(cx)
      ensures this.cx == cx && Valid() && nodes == [] && idFunc == [] && idLoop == [] && callstack == []
      ensures activation[idFunc] == [] && copies == map[[] := Outside]
    {
      this.cx := cx;
      nodes, fwd, rev := [], map[], map[];
      callstack, idFunc, idLoop, nextFunc, nextLoop, translated := [], [], [], 0, 0, {};
      addr, activation, copies := [], map[[] := []], map[[] := Outside];
    }

    method AddEntryAndExit()
      requires Valid() && nodes == []
      modifies this`nodes, this`addr, this`fwd, this`rev
      ensures Valid() && nodes == [Entry, Exit] && |addr| == 2 && 0 in fwd && 1 in fwd && fwd[0] == {} && fwd[1] == {}
    {
      hide ConfigOk, GraphOk, IdsOk, CopyOf;
      var entry := AddNode(Entry, []);
      var exit := AddNode(Exit, []);
    }

    /** Build the unrolled graph of `f` between a fresh entry (node 0) and exit (node 1). */
    method Construct(f: FuncName)
      requires Valid() && f in cx.prog && nodes == [] && callstack == [] && idFunc == [] && idLoop == []
      requires activation[idFunc] == [] && copies == map[[] := Outside]
      modifies this
      ensures Valid()
      ensures |nodes| >= 2 && nodes[0] == Entry && nodes[1] == Exit && UnrolledGraph(cx, f, addr, fwd)
      ensures forall r: nat :: 2 <= r < |nodes| ==> Labelled(nodes[r], addr[r])
      ensures forall r: nat, t: nat :: 2 <= r < |nodes| && 2 <= t < |nodes| ==>
                ToldApart(cx, nodes[r], addr[r], nodes[t], addr[t])
    {
      hide ConfigOk, LaidOut, Enter, Live, IdsOk, GraphOk, Step, UnrolledGraph, Ends, FrameOk, Placed, CopyOf, Depth,
           Labelled, ToldApart;
      FirstPlace(cx, f);
      AddEntryAndExit();
      ghost var before := Now();
      assert callstack == Names([]);
      var port := ConstructFunction(f, []);
      ghost var after := Now();
      EdgesInGraph();
      var links := {(0, port.entry)} + set x | x in port.exits :: (x.1, 1);
      AddEdges(links);
      FunctionGraph(cx, f, before, after, fwd, port, links);
      NodesLabelled(f);
    }

    lemma NodesLabelled(f: FuncName)
      requires Valid() && idFunc == [] && idLoop == [] && f in cx.prog && UnrolledGraph(cx, f, addr, fwd)
      requires |nodes| >= 2 && nodes[0] == Entry && nodes[1] == Exit
      ensures forall r: nat :: 2 <= r < |nodes| ==> Labelled(nodes[r], addr[r])
      ensures forall r: nat, t: nat :: 2 <= r < |nodes| && 2 <= t < |nodes| ==>
                ToldApart(cx, nodes[r], addr[r], nodes[t], addr[t])
    {
      hide ConfigOk, Step, Enter, FrameOk, CopyOf, SeenFunc, SeenLoop, FirstOf, HeaderOf, GraphOk, ToldApart;
      forall r: nat, t: nat | r < |nodes| && t < |nodes|
        ensures ToldApart(cx, nodes[r], addr[r], nodes[t], addr[t])
      {
        AllToldApart(cx, nodes, addr, activation, nextFunc, copies, nextLoop, r, t);
      }
      forall r: nat | 2 <= r < |nodes|
        ensures Labelled(nodes[r], addr[r])
      {
        assert InPart(cx, [], f, Body(cx.prog[f].root), [], addr[r]);
        FramesKnown(cx, f, addr[r]);
        CopyOfDepth(cx, addr[r]);
        assert Stands(cx, activation, copies, nodes[r], addr[r]);
      }
    }

    lemma EntryIsInst(p: Addr, fr: Frame, lo: nat, entry: NodeRef)
      requires Valid() && EntryOk(cx, addr, lo, |nodes|, p, fr, entry)
      ensures nodes[entry].Inst?
    {
      assert Stands(cx, activation, copies, nodes[entry], addr[entry]);
    }

    lemma ValidIds()
      requires Valid()
      ensures idFunc in activation && idLoop in copies
    {
    }
  }

  lemma FramesKnown(cx: Config, f: FuncName, a: Addr)
    requires f in cx.prog && InPart(cx, [], f, Body(cx.prog[f].root), [], a)
    ensures |a| > 0 && forall i :: 0 <= i < |a| ==> a[i].fn in cx.prog
  {
  }

  lemma FirstPlace(cx: Config, f: FuncName)
    requires f in cx.prog
    ensures Placed(cx, map[[] := Outside], [], [], f, cx.prog[f].root, [])
  {
  }
}
