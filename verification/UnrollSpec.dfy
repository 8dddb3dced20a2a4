/** What the unrolled, inlined control-flow graph is supposed to be: a machine
    whose states are stacks of activation frames, each frame carrying one counter
    per enclosing loop, and whose steps are the program's control transfers with
    every counter kept at or below the number of unrolls. */
module UnrollSpec {
  import opened Digraph
  import opened Program

  /** `k` is the number of unrolls, `limit` the recursive call limit. */
  datatype Config = Config(prog: map<FuncName, Function>, limit: nat, k: nat)

  /** One activation: instruction `idx` of `block`, in iteration `iters[i]` of the
      i-th loop around the block, outermost first. */
  datatype Frame = Frame(fn: FuncName, block: Block, idx: nat, iters: seq<nat>)

  /** An activation stack, outermost first; every frame but the last stands at an inlined call. */
  type Addr = seq<Frame>

  ghost predicate ConfigOk(cx: Config) {
    && (forall f {:trigger Reducible(cx.prog[f])} :: f in cx.prog ==> Reducible(cx.prog[f]))
    && (forall f, g :: f in cx.prog && g in cx.prog && f != g ==> cx.prog[f].code.Keys !! cx.prog[g].code.Keys)
  }

  // ---------------------------------------------------------------- call stack

  function Names(a: Addr): (fs: seq<FuncName>)
    ensures |fs| == |a| && forall i :: 0 <= i < |a| ==> fs[i] == a[i].fn
  {
    seq(|a|, i requires 0 <= i < |a| => a[i].fn)
  }

  function Count(fs: seq<FuncName>, f: FuncName): nat {
    multiset(fs)[f]
  }

  /** How many more activations of `f` the stack has room for. */
  function Slack(limit: nat, fs: seq<FuncName>, f: FuncName): nat {
    if Count(fs, f) <= limit then limit + 1 - Count(fs, f) else 0
  }

  ghost function Pick(keys: set<FuncName>): (f: FuncName)
    requires keys != {}
    ensures f in keys
  {
    var f :| f in keys; f
  }

  /** How many more activations of the functions in `keys` the stack has room for. */
  ghost function Room(keys: set<FuncName>, limit: nat, fs: seq<FuncName>): nat {
    if keys == {} then 0
    else Slack(limit, fs, Pick(keys)) + Room(keys - {Pick(keys)}, limit, fs)
  }

  lemma {:induction false} RoomShrinks(keys: set<FuncName>, limit: nat, fs: seq<FuncName>, g: FuncName)
    ensures g in keys && Count(fs, g) <= limit ==> Room(keys, limit, fs) > 0
    ensures Room(keys, limit, fs + [g]) ==
            if g in keys && Count(fs, g) <= limit then Room(keys, limit, fs) - 1 else Room(keys, limit, fs)
  {
    if keys != {} {
      assert multiset(fs + [g]) == multiset(fs) + multiset{g};
      RoomShrinks(keys - {Pick(keys)}, limit, fs, g);
    }
  }

  // ---------------------------------------------------------------- frames

  ghost predicate Live(cx: Config, f: FuncName, b: Block)
    requires f in cx.prog
  {
    b == cx.prog[f].root.header || exists p :: p in cx.prog[f].succs && b in cx.prog[f].succs[p]
  }

  /** A program position: an existing instruction of a block that gets built. */
  ghost predicate FrameOk(cx: Config, fr: Frame) {
    && fr.fn in cx.prog
    && fr.block in cx.prog[fr.fn].code
    && fr.block in cx.prog[fr.fn].succs
    && fr.idx < |cx.prog[fr.fn].code[fr.block]|
    && Live(cx, fr.fn, fr.block)
  }

  ghost predicate AtEnd(cx: Config, fr: Frame)
    requires FrameOk(cx, fr)
  {
    fr.idx == |cx.prog[fr.fn].code[fr.block]| - 1
  }

  ghost predicate AtExit(cx: Config, fr: Frame)
    requires FrameOk(cx, fr)
  {
    AtEnd(cx, fr) && cx.prog[fr.fn].succs[fr.block] == {}
  }

  /** The instruction at `fr`, reached with callers `p`, is a call that gets inlined. */
  ghost predicate Inlined(cx: Config, p: Addr, fr: Frame)
    requires FrameOk(cx, fr)
  {
    var ins := cx.prog[fr.fn].code[fr.block][fr.idx];
    ins.Call? && ins.callee in cx.prog && Count(Names(p + [fr]), ins.callee) <= cx.limit
  }

  ghost function Callee(cx: Config, fr: Frame): FuncName
    requires FrameOk(cx, fr) && cx.prog[fr.fn].code[fr.block][fr.idx].Call?
  {
    cx.prog[fr.fn].code[fr.block][fr.idx].callee
  }

  ghost function StartOf(cx: Config, f: FuncName): Frame
    requires f in cx.prog
  {
    Frame(f, cx.prog[f].root.header, 0, [])
  }

  lemma StartOk(cx: Config, f: FuncName)
    requires ConfigOk(cx) && f in cx.prog
    ensures FrameOk(cx, StartOf(cx, f))
  {
    assert Reducible(cx.prog[f]);
    var rank :| WellFormed(cx.prog[f], rank);
  }

  ghost function RoomAt(cx: Config, a: Addr): nat {
    Room(cx.prog.Keys, cx.limit, Names(a))
  }

  lemma InliningShrinksRoom(cx: Config, p: Addr, fr: Frame, fr': Frame)
    requires FrameOk(cx, fr) && Inlined(cx, p, fr) && fr'.fn == Callee(cx, fr)
    ensures RoomAt(cx, p + [fr] + [fr']) < RoomAt(cx, p + [fr])
  {
    assert Names(p + [fr] + [fr']) == Names(p + [fr]) + [fr'.fn];
    RoomShrinks(cx.prog.Keys, cx.limit, Names(p + [fr]), fr'.fn);
  }

  lemma PrefixOfExtension(a: Addr, p: Addr, fr: Frame)
    requires |a| > |p| + 1 && a[..|p| + 1] == p + [fr]
    ensures a[..|p|] == p && a[|p|] == fr
  {
    assert a[..|p|] == a[..|p| + 1][..|p|];
    assert a[|p|] == a[..|p| + 1][|p|];
  }

  /** The first position that runs when control arrives at `fr` with callers `p`:
      `fr` itself, or the start of the function it inlines. */
  ghost function Enter(cx: Config, p: Addr, fr: Frame): (a: Addr)
    requires ConfigOk(cx) && FrameOk(cx, fr)
    ensures |a| > |p| && a[..|p|] == p && a[|p|] == fr
    decreases RoomAt(cx, p + [fr])
  {
    if Inlined(cx, p, fr) then
      var fr' := StartOf(cx, Callee(cx, fr));
      StartOk(cx, fr'.fn);
      InliningShrinksRoom(cx, p, fr, fr');
      var a := Enter(cx, p + [fr], fr');
      PrefixOfExtension(a, p, fr);
      a
    else p + [fr]
  }

  // ---------------------------------------------------------------- counters

  /** `c` holds one in-range counter for each loop between `l` and `b`. */
  ghost predicate CountersOk(k: nat, l: Loop, b: Block, c: seq<nat>)
    decreases l
  {
    var i := SubIndex(l.subs, b);
    if i >= 0 then |c| >= 1 && c[0] <= k && CountersOk(k, l.subs[i], b, c[1..])
    else c == []
  }

  /** The counters with which `b`, a component of `l`, is entered from elsewhere in `l`. */
  ghost function Fresh(l: Loop, b: Block): seq<nat> {
    if SubIndex(l.subs, b) >= 0 then [0] else []
  }

  /** How a control transfer from `b` to `b'` within `l` changes the counters of the
      loops inside `l`; a transfer to `l`'s own header is not counted here. */
  ghost predicate MoveWithin(k: nat, l: Loop, b: Block, c: seq<nat>, b': Block, c': seq<nat>)
    decreases l, 0
  {
    var i := SubIndex(l.subs, b);
    if i >= 0 && b' in l.subs[i].blocks then MoveAround(k, l.subs[i], b, c, b', c')
    else c' == Fresh(l, b')
  }

  /** The same for a transfer inside the loop `l`, whose own counter leads the
      sequence: a transfer to the header begins the next iteration. */
  ghost predicate MoveAround(k: nat, l: Loop, b: Block, c: seq<nat>, b': Block, c': seq<nat>)
    decreases l, 1
  {
    && |c| >= 1
    && |c'| >= 1
    && if b' == l.header then c[0] + 1 <= k && c' == [c[0] + 1]
       else c'[0] == c[0] && MoveWithin(k, l, b, c[1..], b', c'[1..])
  }

  // ---------------------------------------------------------------- the machine

  /** The level at which `a` moves: its top frame, unless that frame has returned. */
  ghost function Pivot(cx: Config, a: Addr): int
    requires |a| > 0 && FrameOk(cx, a[|a| - 1])
  {
    if AtExit(cx, a[|a| - 1]) then |a| - 2 else |a| - 1
  }

  /** The part of a function that a builder routine has laid out so far: one
      instruction; the first `n` instructions of a block; these and instruction `n`,
      not yet connected; the first `m` subloops of `l` and the blocks `done`, not
      connected to each other; all of `l`'s blocks, connected; the same without the
      edges to the header; the first `n` iterations of `l`, not connected to each
      other; the finished loop. */
  datatype View =
    | OneInstr(b: Block, j: nat)
    | Chain(b: Block, n: nat)
    | Gap(b: Block, n: nat)
    | Parts(l: Loop, m: nat, done: set<Block>)
    | Body(l: Loop)
    | Cut(l: Loop)
    | Rounds(l: Loop, n: nat)
    | Unrolled(l: Loop)

  ghost predicate InView(cx: Config, v: View, iters: seq<nat>, fr: Frame) {
    && |fr.iters| >= |iters|
    && fr.iters[..|iters|] == iters
    && var c := fr.iters[|iters|..];
       match v
       case OneInstr(b, j) => fr.block == b && fr.idx == j && c == []
       case Chain(b, n) => fr.block == b && fr.idx < n && c == []
       case Gap(b, n) => fr.block == b && fr.idx <= n && c == []
       case Parts(l, m, done) =>
         && fr.block in l.blocks
         && CountersOk(cx.k, l, fr.block, c)
         && (0 <= SubIndex(l.subs, fr.block) < m || (SubIndex(l.subs, fr.block) < 0 && fr.block in done))
       case Body(l) => fr.block in l.blocks && CountersOk(cx.k, l, fr.block, c)
       case Cut(l) => fr.block in l.blocks && CountersOk(cx.k, l, fr.block, c)
       case Rounds(l, n) => fr.block in l.blocks && |c| >= 1 && c[0] < n && CountersOk(cx.k, l, fr.block, c[1..])
       case Unrolled(l) => fr.block in l.blocks && |c| >= 1 && c[0] <= cx.k && CountersOk(cx.k, l, fr.block, c[1..])
  }

  /** Control passes from `fr` to the next instruction of its block. */
  ghost predicate NextInstr(cx: Config, fr: Frame, fr': Frame)
    requires FrameOk(cx, fr)
  {
    !AtEnd(cx, fr) && fr' == fr.(idx := fr.idx + 1)
  }

  /** Control passes from the end of `fr`'s block to a successor block. */
  ghost predicate NextBlock(cx: Config, fr: Frame, fr': Frame)
    requires FrameOk(cx, fr)
  {
    && AtEnd(cx, fr)
    && fr'.fn == fr.fn
    && fr'.idx == 0
    && fr'.block in cx.prog[fr.fn].succs[fr.block]
  }

  /** The moves that a laid-out part has edges for. */
  ghost predicate MoveIn(cx: Config, v: View, iters: seq<nat>, fr: Frame, fr': Frame)
    requires FrameOk(cx, fr)
  {
    match v
    case OneInstr(_, _) => false
    case Chain(_, n) => NextInstr(cx, fr, fr') && fr'.idx < n
    case Gap(_, n) => NextInstr(cx, fr, fr') && fr'.idx < n
    case Parts(l, _, _) =>
      || NextInstr(cx, fr, fr')
      || (BlockMove(cx, l, iters, fr, fr') && SubIndex(l.subs, fr.block) >= 0 &&
          fr'.block in l.subs[SubIndex(l.subs, fr.block)].blocks &&
          MoveAround(cx.k, l.subs[SubIndex(l.subs, fr.block)], fr.block, fr.iters[|iters|..], fr'.block,
                     fr'.iters[|iters|..]))
    case Body(l) =>
      || NextInstr(cx, fr, fr')
      || (BlockMove(cx, l, iters, fr, fr') &&
          MoveWithin(cx.k, l, fr.block, fr.iters[|iters|..], fr'.block, fr'.iters[|iters|..]))
    case Cut(l) =>
      || NextInstr(cx, fr, fr')
      || (BlockMove(cx, l, iters, fr, fr') && fr'.block != l.header &&
          MoveWithin(cx.k, l, fr.block, fr.iters[|iters|..], fr'.block, fr'.iters[|iters|..]))
    case Rounds(l, _) =>
      || NextInstr(cx, fr, fr')
      || (BlockMove(cx, l, iters, fr, fr') && fr'.block != l.header &&
          MoveAround(cx.k, l, fr.block, fr.iters[|iters|..], fr'.block, fr'.iters[|iters|..]))
    case Unrolled(l) =>
      || NextInstr(cx, fr, fr')
      || (BlockMove(cx, l, iters, fr, fr') &&
          MoveAround(cx.k, l, fr.block, fr.iters[|iters|..], fr'.block, fr'.iters[|iters|..]))
  }

  /** A move between blocks of `l` that keeps the counters `iters` of the loops around `l`. */
  ghost predicate BlockMove(cx: Config, l: Loop, iters: seq<nat>, fr: Frame, fr': Frame)
    requires FrameOk(cx, fr)
  {
    && NextBlock(cx, fr, fr')
    && fr.block in l.blocks && fr'.block in l.blocks
    && |fr.iters| >= |iters| && fr.iters[..|iters|] == iters
    && |fr'.iters| >= |iters| && fr'.iters[..|iters|] == iters
  }

  /** The frame move, one step of an activation of the whole function. */
  ghost predicate Move(cx: Config, fr: Frame, fr': Frame)
    requires FrameOk(cx, fr)
  {
    MoveIn(cx, Body(cx.prog[fr.fn].root), [], fr, fr')
  }

  lemma MoveOk(cx: Config, v: View, iters: seq<nat>, fr: Frame, fr': Frame)
    requires ConfigOk(cx) && FrameOk(cx, fr) && MoveIn(cx, v, iters, fr, fr')
    ensures FrameOk(cx, fr')
  {
    assert Reducible(cx.prog[fr.fn]);
    var rank :| WellFormed(cx.prog[fr.fn], rank);
    if !NextInstr(cx, fr, fr') {
      assert HasPredecessor(cx.prog[fr.fn], fr'.block);
    }
  }

  ghost predicate ArrivesBy(cx: Config, p: Addr, v: View, iters: seq<nat>, fr: Frame, fr': Frame, b: Addr)
    requires ConfigOk(cx) && FrameOk(cx, fr)
  {
    && MoveIn(cx, v, iters, fr, fr')
    && !(AtEnd(cx, fr) && Inlined(cx, p, fr))
    && (MoveOk(cx, v, iters, fr, fr'); b == Enter(cx, p, fr'))
  }

  /** One step of the machine. */
  ghost predicate Step(cx: Config, a: Addr, b: Addr)
    requires ConfigOk(cx)
  {
    && |a| > 0
    && (forall i :: 0 <= i < |a| ==> FrameOk(cx, a[i]))
    && var m := Pivot(cx, a);
       m >= 0 &&
       exists fr' :: ArrivesBy(cx, a[..m], Body(cx.prog[a[m].fn].root), [], a[m], fr', b)
  }

  // ---------------------------------------------------------------- laid-out parts

  ghost predicate AllFramesOk(cx: Config, a: Addr) {
    forall i :: 0 <= i < |a| ==> FrameOk(cx, a[i])
  }

  /** Frame `i` is an activation that frame `i - 1` calls. */
  ghost predicate CalledAt(cx: Config, a: Addr, i: nat)
    requires 0 < i < |a| && FrameOk(cx, a[i - 1])
  {
    && Inlined(cx, a[..i - 1], a[i - 1])
    && a[i].fn == Callee(cx, a[i - 1])
    && InView(cx, Body(cx.prog[a[i].fn].root), [], a[i])
  }

  /** From level `m` on, `a` is a position of the machine. */
  ghost predicate Position(cx: Config, a: Addr, m: nat) {
    && m < |a|
    && AllFramesOk(cx, a)
    && (forall i :: m < i < |a| ==> CalledAt(cx, a, i))
    && !Inlined(cx, a[..|a| - 1], a[|a| - 1])
  }

  /** The positions that part `v` of an activation of `f` with callers `p` consists of. */
  ghost predicate InPart(cx: Config, p: Addr, f: FuncName, v: View, iters: seq<nat>, a: Addr) {
    && |a| > |p|
    && a[..|p|] == p
    && a[|p|].fn == f
    && Position(cx, a, |p|)
    && InView(cx, v, iters, a[|p|])
  }

  /** The steps that part `v` has edges for. */
  ghost predicate StepIn(cx: Config, p: Addr, v: View, iters: seq<nat>, a: Addr, b: Addr)
    requires ConfigOk(cx)
  {
    && |a| > |p|
    && AllFramesOk(cx, a)
    && ((Pivot(cx, a) > |p| && Step(cx, a, b)) ||
        (Pivot(cx, a) == |p| && exists fr' :: ArrivesBy(cx, p, v, iters, a[|p|], fr', b)))
  }

  ghost predicate Has(addr: seq<Addr>, lo: nat, hi: nat, a: Addr)
    requires hi <= |addr|
  {
    exists r :: lo <= r < hi && addr[r] == a
  }

  /** The references `lo..hi` are, one to one, the positions of the part. */
  ghost predicate Covers(cx: Config, addr: seq<Addr>, lo: nat, hi: nat, p: Addr, f: FuncName, v: View,
                         iters: seq<nat>) {
    && lo <= hi <= |addr|
    && (forall r :: lo <= r < hi ==> InPart(cx, p, f, v, iters, addr[r]))
    && (forall a :: InPart(cx, p, f, v, iters, a) ==> Has(addr, lo, hi, a))
    && (forall r, s :: lo <= r < s < hi ==> addr[r] != addr[s])
  }

  /** The edges out of `lo..hi` are exactly the part's steps. */
  ghost predicate Wired(cx: Config, addr: seq<Addr>, fwd: map<nat, set<nat>>, lo: nat, hi: nat, p: Addr, v: View,
                        iters: seq<nat>)
    requires ConfigOk(cx) && hi <= |addr|
  {
    forall r: nat, s: nat :: lo <= r < hi ==>
        (Edge(fwd, r, s) <==> lo <= s < hi && StepIn(cx, p, v, iters, addr[r], addr[s]))
  }

  ghost predicate LaidOut(cx: Config, addr: seq<Addr>, fwd: map<nat, set<nat>>, lo: nat, hi: nat,
                          p: Addr, f: FuncName, v: View, iters: seq<nat>)
    requires ConfigOk(cx)
  {
    Covers(cx, addr, lo, hi, p, f, v, iters) && Wired(cx, addr, fwd, lo, hi, p, v, iters)
  }
}
