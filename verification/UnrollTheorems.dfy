/** What the unrolled graph means for the program: it has no cycles, every edge is a
    control transfer of the program, a transfer is missing only when it would begin
    an iteration beyond the last one, and inlining is bounded. */
module UnrollTheorems {
  import opened Digraph
  import opened Program
  import opened UnrollSpec
  import opened UnrollParts
  import opened Unroll

  // ---------------------------------------------------------------- lexicographic order

  ghost predicate LexLess(x: seq<nat>, y: seq<nat>) {
    exists m :: 0 <= m < |x| && m < |y| && x[..m] == y[..m] && x[m] < y[m]
  }

  lemma LexAppend(p: seq<nat>, x: seq<nat>, y: seq<nat>, s: seq<nat>, t: seq<nat>)
    requires LexLess(x, y)
    ensures LexLess(p + x + s, p + y + t)
  {
    var m :| 0 <= m < |x| && m < |y| && x[..m] == y[..m] && x[m] < y[m];
    var n := |p| + m;
    assert (p + x + s)[..n] == p + x[..m] && (p + y + t)[..n] == p + y[..m];
    assert (p + x + s)[n] == x[m] && (p + y + t)[n] == y[m];
  }

  lemma LexTrans(x: seq<nat>, y: seq<nat>, z: seq<nat>)
    requires LexLess(x, y) && LexLess(y, z)
    ensures LexLess(x, z)
  {
    var m :| 0 <= m < |x| && m < |y| && x[..m] == y[..m] && x[m] < y[m];
    var n :| 0 <= n < |y| && n < |z| && y[..n] == z[..n] && y[n] < z[n];
    var j := if m < n then m else n;
    PrefixFacts(x, y, m, j);
    PrefixFacts(y, z, n, j);
    assert x[..j] == z[..j];
    assert x[j] < z[j];
  }

  lemma LexIrreflexive(x: seq<nat>)
    ensures !LexLess(x, x)
  {
  }

  // ---------------------------------------------------------------- steps go forward

  ghost function RankFor(fn: Function): (rank: map<Block, nat>)
    requires Reducible(fn)
    ensures WellFormed(fn, rank)
  {
    var rank :| WellFormed(fn, rank); rank
  }

  function RankOf(rank: map<Block, nat>, b: Block): nat {
    if b in rank then rank[b] else 0
  }

  /** The place of `b` in iteration `c`: the rank of its component in `l`, and for a
      component that is a loop the iteration and the place within it. */
  ghost function BlockKey(rank: map<Block, nat>, l: Loop, b: Block, c: seq<nat>): seq<nat>
    decreases l
  {
    var i := SubIndex(l.subs, b);
    if i >= 0 && |c| >= 1 then [RankOf(rank, Representative(l, b)), c[0]] + BlockKey(rank, l.subs[i], b, c[1..])
    else [RankOf(rank, Representative(l, b))]
  }

  lemma {:induction false} MoveGoesForward(k: nat, fn: Function, rank: map<Block, nat>, l: Loop, b: Block, c: seq<nat>,
                                           b': Block, c': seq<nat>)
    requires WellNested(fn, rank, l) && b in l.blocks && b' in l.blocks && b' != l.header
    requires b in fn.succs && b' in fn.succs[b]
    requires CountersOk(k, l, b, c) && MoveWithin(k, l, b, c, b', c')
    ensures LexLess(BlockKey(rank, l, b, c), BlockKey(rank, l, b', c'))
    decreases l
  {
    var i, i' := SubIndex(l.subs, b), SubIndex(l.subs, b');
    var x, y := BlockKey(rank, l, b, c), BlockKey(rank, l, b', c');
    if i >= 0 && b' in l.subs[i].blocks {
      var s := l.subs[i];
      assert i' == i;
      var r := RankOf(rank, s.header);
      if b' == s.header {
        assert x[..1] == [r] == y[..1] && x[1] < y[1];
      } else {
        assert WellNested(fn, rank, s);
        MoveGoesForward(k, fn, rank, s, b, c[1..], b', c'[1..]);
        LexAppend([r, c[0]], BlockKey(rank, s, b, c[1..]), BlockKey(rank, s, b', c'[1..]), [], []);
        assert x == [r, c[0]] + BlockKey(rank, s, b, c[1..]) + [];
        assert y == [r, c[0]] + BlockKey(rank, s, b', c'[1..]) + [];
      }
    } else {
      assert !SameSub(l, b, b') by {
        if j :| 0 <= j < |l.subs| && b in l.subs[j].blocks && b' in l.subs[j].blocks {
          assert false;
        }
      }
      assert x[..0] == y[..0] && x[0] < y[0];
    }
  }

  ghost function FrameKey(cx: Config, fr: Frame): seq<nat>
    requires ConfigOk(cx) && fr.fn in cx.prog
  {
    assert Reducible(cx.prog[fr.fn]);
    BlockKey(RankFor(cx.prog[fr.fn]), cx.prog[fr.fn].root, fr.block, fr.iters) + [fr.idx]
  }

  ghost function Key(cx: Config, a: Addr): seq<nat>
    requires ConfigOk(cx) && AllFramesOk(cx, a)
  {
    if a == [] then [] else FrameKey(cx, a[0]) + Key(cx, a[1..])
  }

  lemma {:induction false} KeySplit(cx: Config, a: Addr, m: nat)
    requires ConfigOk(cx) && AllFramesOk(cx, a) && m < |a|
    ensures Key(cx, a) == Key(cx, a[..m]) + FrameKey(cx, a[m]) + Key(cx, a[m + 1..])
    decreases |a|
  {
    hide ConfigOk, FrameKey, Live;
    if m == 0 {
      assert a[..0] == [];
      assert Key(cx, a) == [] + FrameKey(cx, a[0]) + Key(cx, a[1..]);
    } else {
      KeySplit(cx, a[1..], m - 1);
      assert a[1..][..m - 1] == a[..m][1..] && a[1..][m - 1] == a[m] && a[1..][m - 1 + 1..] == a[m + 1..];
      assert a[..m][0] == a[0] && Key(cx, a[..m]) == FrameKey(cx, a[0]) + Key(cx, a[..m][1..]);
    }
  }

  lemma LexLast(x: seq<nat>, i: nat, j: nat)
    requires i < j
    ensures LexLess(x + [i], x + [j])
  {
    assert (x + [i])[..|x|] == x == (x + [j])[..|x|];
    assert (x + [i])[|x|] < (x + [j])[|x|];
  }

  lemma FrameGoesForward(cx: Config, fr: Frame, fr': Frame)
    requires ConfigOk(cx) && FrameOk(cx, fr) && FrameOk(cx, fr') && Move(cx, fr, fr')
    requires InView(cx, Body(cx.prog[fr.fn].root), [], fr)
    ensures LexLess(FrameKey(cx, fr), FrameKey(cx, fr'))
  {
    hide BlockKey, LexLess, CountersOk, MoveWithin, WellNested;
    assert Reducible(cx.prog[fr.fn]);
    var fn := cx.prog[fr.fn];
    var rank := RankFor(fn);
    var x, y := BlockKey(rank, fn.root, fr.block, fr.iters), BlockKey(rank, fn.root, fr'.block, fr'.iters);
    if NextInstr(cx, fr, fr') {
      LexLast(x, fr.idx, fr'.idx);
    } else {
      assert fr.iters[0..] == fr.iters && fr'.iters[0..] == fr'.iters;
      MoveGoesForward(cx.k, fn, rank, fn.root, fr.block, fr.iters, fr'.block, fr'.iters);
      LexAppend([], x, y, [fr.idx], [fr'.idx]);
      assert [] + x + [fr.idx] == x + [fr.idx] && [] + y + [fr'.idx] == y + [fr'.idx];
    }
  }

  /** The pivot frame of a position carries counters of its function. */
  lemma PivotInView(cx: Config, f: FuncName, a: Addr)
    requires ConfigOk(cx) && f in cx.prog && InPart(cx, [], f, Body(cx.prog[f].root), [], a) && Pivot(cx, a) >= 0
    ensures InView(cx, Body(cx.prog[a[Pivot(cx, a)].fn].root), [], a[Pivot(cx, a)])
  {
    var m := Pivot(cx, a);
    if m > 0 {
      assert CalledAt(cx, a, m);
    }
  }

  lemma StepGoesForward(cx: Config, f: FuncName, a: Addr, b: Addr)
    requires ConfigOk(cx) && f in cx.prog && InPart(cx, [], f, Body(cx.prog[f].root), [], a)
    requires AllFramesOk(cx, b) && Step(cx, a, b)
    ensures LexLess(Key(cx, a), Key(cx, b))
  {
    hide ConfigOk, InPart, InView, MoveIn, Enter, Key, FrameKey;
    var m := Pivot(cx, a);
    var root := Body(cx.prog[a[m].fn].root);
    var fr' :| ArrivesBy(cx, a[..m], root, [], a[m], fr', b);
    MoveOk(cx, root, [], a[m], fr');
    PivotInView(cx, f, a);
    FrameGoesForward(cx, a[m], fr');
    KeySplit(cx, a, m);
    KeySplit(cx, b, m);
    LexAppend(Key(cx, a[..m]), FrameKey(cx, a[m]), FrameKey(cx, fr'), Key(cx, a[m + 1..]), Key(cx, b[m + 1..]));
  }

  // ---------------------------------------------------------------- no cycles

  lemma EdgeGoesForward(cx: Config, f: FuncName, addr: seq<Addr>, fwd: map<nat, set<nat>>, r: nat, s: nat)
    requires ConfigOk(cx) && UnrolledGraph(cx, f, addr, fwd) && 2 <= r && 2 <= s && Edge(fwd, r, s)
    ensures r < |addr| && s < |addr| && AllFramesOk(cx, addr[r]) && AllFramesOk(cx, addr[s])
    ensures LexLess(Key(cx, addr[r]), Key(cx, addr[s]))
  {
    assert InPart(cx, [], f, Body(cx.prog[f].root), [], addr[r]) &&
           InPart(cx, [], f, Body(cx.prog[f].root), [], addr[s]);
    StepGoesForward(cx, f, addr[r], addr[s]);
  }

  lemma {:induction false} PathGoesForward(cx: Config, f: FuncName, addr: seq<Addr>, fwd: map<nat, set<nat>>,
                                           q: seq<nat>)
    requires ConfigOk(cx) && UnrolledGraph(cx, f, addr, fwd) && |q| >= 2
    requires forall i :: 0 <= i < |q| ==> q[i] >= 2
    requires forall i :: 0 <= i < |q| - 1 ==> Edge(fwd, q[i], q[i + 1])
    ensures q[0] < |addr| && q[|q| - 1] < |addr| && AllFramesOk(cx, addr[q[0]]) && AllFramesOk(cx, addr[q[|q| - 1]])
    ensures LexLess(Key(cx, addr[q[0]]), Key(cx, addr[q[|q| - 1]]))
    decreases |q|
  {
    hide ConfigOk, UnrolledGraph, Key, LexLess, AllFramesOk;
    EdgeGoesForward(cx, f, addr, fwd, q[|q| - 2], q[|q| - 1]);
    if |q| > 2 {
      var q' := q[..|q| - 1];
      PathGoesForward(cx, f, addr, fwd, q');
      LexTrans(Key(cx, addr[q[0]]), Key(cx, addr[q[|q| - 2]]), Key(cx, addr[q[|q| - 1]]));
    }
  }

  /** Nothing leads to node 0 and nothing on from node 1. */
  lemma CycleIsInner(cx: Config, f: FuncName, addr: seq<Addr>, fwd: map<nat, set<nat>>, q: seq<nat>, r: nat)
    requires ConfigOk(cx) && UnrolledGraph(cx, f, addr, fwd) && Path(fwd, q, r, r) && |q| >= 2
    ensures forall i :: 0 <= i < |q| ==> q[i] >= 2
  {
    hide ConfigOk, Covers, Step, Enter, FrameOk, Returned;
    forall i | 0 <= i < |q|
      ensures q[i] >= 2
    {
      var j := if i == 0 then |q| - 1 else i;
      assert Edge(fwd, q[j - 1], q[j - 1 + 1]);
      var n := if i == |q| - 1 then 0 else i;
      assert Edge(fwd, q[n], q[n + 1]);
    }
  }

  /** The unrolled graph is acyclic. */
  lemma UnrolledAcyclic(cx: Config, f: FuncName, addr: seq<Addr>, fwd: map<nat, set<nat>>)
    requires ConfigOk(cx) && UnrolledGraph(cx, f, addr, fwd)
    ensures Acyclic(fwd)
  {
    hide ConfigOk, UnrolledGraph, Key, LexLess, AllFramesOk;
    forall r: nat | ReachPlus(fwd, r, r)
      ensures false
    {
      var q :| Path(fwd, q, r, r) && |q| >= 2;
      CycleIsInner(cx, f, addr, fwd, q, r);
      PathGoesForward(cx, f, addr, fwd, q);
      LexIrreflexive(Key(cx, addr[r]));
    }
  }

  // ---------------------------------------------------------------- the program without counters

  ghost function Bare(fr: Frame): Frame {
    fr.(iters := [])
  }

  /** The position in the original program: the same stack, without iteration counters. */
  ghost function Erase(a: Addr): (e: Addr)
    ensures |e| == |a| && forall i :: 0 <= i < |a| ==> e[i] == Bare(a[i])
  {
    seq(|a|, i requires 0 <= i < |a| => Bare(a[i]))
  }

  /** A control transfer of the original program within one activation. */
  ghost predicate ProgramMove(cx: Config, fr: Frame, fr': Frame)
    requires FrameOk(cx, fr)
  {
    FrameOk(cx, fr') && fr'.iters == [] && (NextInstr(cx, fr, fr') || NextBlock(cx, fr, fr'))
  }

  ghost predicate ProgramArrival(cx: Config, p: Addr, fr: Frame, fr': Frame, b: Addr)
    requires ConfigOk(cx) && FrameOk(cx, fr)
  {
    ProgramMove(cx, fr, fr') && b == Enter(cx, p, fr')
  }

  /** A control transfer of the original program, calls and returns included. */
  ghost predicate ProgramStep(cx: Config, a: Addr, b: Addr)
    requires ConfigOk(cx)
  {
    |a| > 0 && AllFramesOk(cx, a) && Pivot(cx, a) >= 0 &&
    exists fr' :: ProgramArrival(cx, a[..Pivot(cx, a)], a[Pivot(cx, a)], fr', b)
  }

  lemma EraseFrames(cx: Config, a: Addr)
    requires AllFramesOk(cx, a)
    ensures AllFramesOk(cx, Erase(a)) && Names(Erase(a)) == Names(a)
    ensures |a| > 0 ==> Pivot(cx, Erase(a)) == Pivot(cx, a)
  {
    assert Names(Erase(a)) == Names(a);
    forall i | 0 <= i < |a|
      ensures FrameOk(cx, Erase(a)[i])
    {
      assert FrameOk(cx, a[i]);
    }
  }

  lemma InlinedIgnoresCounters(cx: Config, p: Addr, fr: Frame)
    requires FrameOk(cx, fr)
    ensures FrameOk(cx, Bare(fr)) && (Inlined(cx, Erase(p), Bare(fr)) <==> Inlined(cx, p, fr))
  {
    assert Names(Erase(p) + [Bare(fr)]) == Names(p + [fr]);
  }

  lemma {:induction false} EnterErases(cx: Config, p: Addr, fr: Frame)
    requires ConfigOk(cx) && FrameOk(cx, fr) && FrameOk(cx, Bare(fr))
    ensures Erase(Enter(cx, p, fr)) == Enter(cx, Erase(p), Bare(fr))
    decreases RoomAt(cx, p + [fr])
  {
    InlinedIgnoresCounters(cx, p, fr);
    assert Erase(p + [fr]) == Erase(p) + [Bare(fr)];
    if Inlined(cx, p, fr) {
      var fr' := StartOf(cx, Callee(cx, fr));
      StartOk(cx, fr'.fn);
      InliningShrinksRoom(cx, p, fr, fr');
      assert Bare(fr') == fr';
      EnterErases(cx, p + [fr], fr');
    }
  }

  lemma MoveProjects(cx: Config, fr: Frame, fr': Frame)
    requires ConfigOk(cx) && FrameOk(cx, fr) && Move(cx, fr, fr')
    ensures FrameOk(cx, fr') && FrameOk(cx, Bare(fr)) && ProgramMove(cx, Bare(fr), Bare(fr'))
  {
    MoveOk(cx, Body(cx.prog[fr.fn].root), [], fr, fr');
  }

  /** Every step of the unrolled machine is a step of the program. */
  lemma Projection(cx: Config, a: Addr, b: Addr)
    requires ConfigOk(cx) && Step(cx, a, b)
    ensures ProgramStep(cx, Erase(a), Erase(b))
  {
    hide ConfigOk, MoveIn, Enter, Live;
    var m := Pivot(cx, a);
    var fr' :| ArrivesBy(cx, a[..m], Body(cx.prog[a[m].fn].root), [], a[m], fr', b);
    EraseFrames(cx, a);
    MoveProjects(cx, a[m], fr');
    EnterErases(cx, a[..m], fr');
    assert Erase(a)[..m] == Erase(a[..m]);
    assert ProgramArrival(cx, Erase(a)[..m], Erase(a)[m], Bare(fr'), Erase(b));
  }

  // ---------------------------------------------------------------- which transfers are kept

  /** The transfer from `b` to `d` goes back to the header of a loop inside `l` that
      is already in its last iteration. */
  ghost predicate LastIteration(k: nat, l: Loop, b: Block, c: seq<nat>, d: Block)
    decreases l
  {
    var i := SubIndex(l.subs, b);
    i >= 0 && d in l.subs[i].blocks && |c| >= 1 &&
    if d == l.subs[i].header then c[0] >= k else LastIteration(k, l.subs[i], b, c[1..], d)
  }

  /** The counters after the transfer from `b` to `d`, if it is kept. */
  ghost function NextCounters(l: Loop, b: Block, c: seq<nat>, d: Block): seq<nat>
    decreases l
  {
    var i := SubIndex(l.subs, b);
    if i >= 0 && d in l.subs[i].blocks && |c| >= 1 then
      if d == l.subs[i].header then [c[0] + 1] else [c[0]] + NextCounters(l.subs[i], b, c[1..], d)
    else Fresh(l, d)
  }

  lemma {:induction false} MoveKept(k: nat, l: Loop, b: Block, c: seq<nat>, d: Block, c': seq<nat>)
    requires CountersOk(k, l, b, c)
    ensures MoveWithin(k, l, b, c, d, c') <==> !LastIteration(k, l, b, c, d) && c' == NextCounters(l, b, c, d)
    decreases l
  {
    var i := SubIndex(l.subs, b);
    if i >= 0 && d in l.subs[i].blocks && d != l.subs[i].header {
      MoveKept(k, l.subs[i], b, c[1..], d, if |c'| >= 1 then c'[1..] else []);
      if |c'| >= 1 {
        assert c' == [c'[0]] + c'[1..];
      }
    }
  }

  /** Control returns to the end of a block whose last instruction is a call that was inlined. */
  ghost predicate Stranded(cx: Config, a: Addr) {
    && |a| > 0 && AllFramesOk(cx, a) && Pivot(cx, a) >= 0
    && var m := Pivot(cx, a);
       AtEnd(cx, a[m]) && Inlined(cx, a[..m], a[m])
  }

  /** `a` is stranded, or would go back to a loop header from the last iteration. */
  ghost predicate Refused(cx: Config, a: Addr, e: Addr) {
    || Stranded(cx, a)
    || (&& |a| > 0 && AllFramesOk(cx, a) && 0 <= Pivot(cx, a) < |e|
        && var m := Pivot(cx, a);
           AtEnd(cx, a[m]) && LastIteration(cx.k, cx.prog[a[m].fn].root, a[m].block, a[m].iters, e[m].block))
  }

  lemma StrandedErased(cx: Config, a: Addr)
    requires AllFramesOk(cx, a)
    ensures Stranded(cx, Erase(a)) <==> Stranded(cx, a)
  {
    hide Inlined, Live;
    EraseFrames(cx, a);
    if |a| > 0 && Pivot(cx, a) >= 0 {
      var m := Pivot(cx, a);
      assert Erase(a)[..m] == Erase(a[..m]);
      InlinedIgnoresCounters(cx, a[..m], a[m]);
    }
  }

  /** The program goes on from a stranded position, to every successor of the block that
      made the call, and the machine does not. */
  lemma StrandedStops(cx: Config, a: Addr)
    requires ConfigOk(cx) && Stranded(cx, a)
    ensures exists e :: ProgramStep(cx, Erase(a), e)
    ensures forall b :: !Step(cx, a, b)
  {
    hide ConfigOk, Enter, MoveIn, Live, ProgramStep, Names;
    var m := Pivot(cx, a);
    EraseFrames(cx, a);
    CodeFacts(cx, a[m].fn, a[m].block);
    ProgramGoesOn(cx, Erase(a), m);
  }

  lemma ProgramGoesOn(cx: Config, e: Addr, m: nat)
    requires ConfigOk(cx) && |e| > 0 && AllFramesOk(cx, e) && m == Pivot(cx, e) && AtEnd(cx, e[m])
    requires cx.prog[e[m].fn].succs[e[m].block] != {}
    ensures exists e' :: ProgramStep(cx, e, e')
  {
    hide ConfigOk, Enter, Live;
    var fr := e[m];
    var d :| d in cx.prog[fr.fn].succs[fr.block];
    SuccessorOk(cx, fr, d);
    var fe := Frame(fr.fn, d, 0, []);
    assert ProgramArrival(cx, e[..m], fr, fe, Enter(cx, e[..m], fe));
    assert ProgramStep(cx, e, Enter(cx, e[..m], fe));
  }

  lemma SuccessorOk(cx: Config, fr: Frame, d: Block)
    requires ConfigOk(cx) && FrameOk(cx, fr) && d in cx.prog[fr.fn].succs[fr.block]
    ensures FrameOk(cx, Frame(fr.fn, d, 0, []))
  {
    assert Reducible(cx.prog[fr.fn]);
    var rank :| WellFormed(cx.prog[fr.fn], rank);
    assert HasPredecessor(cx.prog[fr.fn], d);
  }

  lemma FrameLifts(cx: Config, fr: Frame, fe: Frame, fr': Frame)
    requires ConfigOk(cx) && FrameOk(cx, fr) && InView(cx, Body(cx.prog[fr.fn].root), [], fr)
    requires FrameOk(cx, Bare(fr)) && ProgramMove(cx, Bare(fr), fe)
    ensures Move(cx, fr, fr') && Bare(fr') == fe <==>
            !(AtEnd(cx, fr) && LastIteration(cx.k, cx.prog[fr.fn].root, fr.block, fr.iters, fe.block)) &&
            fr' == fe.(iters := if AtEnd(cx,
                                         fr) then NextCounters(cx.prog[fr.fn].root, fr.block, fr.iters, fe.block)
                                         else fr.iters)
  {
    assert Reducible(cx.prog[fr.fn]);
    var rank :| WellFormed(cx.prog[fr.fn], rank);
    assert fr.iters[0..] == fr.iters && fr'.iters[0..] == fr'.iters;
    MoveKept(cx.k, cx.prog[fr.fn].root, fr.block, fr.iters, fe.block, fr'.iters);
  }

  /** A step of the program from a position of the unrolled machine is kept unless it
      leaves a block that ends with an inlined call or goes back to the header of a loop
      in its last iteration. */
  lemma Lifting(cx: Config, f: FuncName, a: Addr, e: Addr)
    requires ConfigOk(cx) && f in cx.prog && InPart(cx, [], f, Body(cx.prog[f].root), [], a)
    requires ProgramStep(cx, Erase(a), e)
    ensures (exists b :: Step(cx, a, b) && Erase(b) == e) <==> !Refused(cx, a, e)
  {
    hide ConfigOk, Enter, InView, LastIteration, NextCounters, Live;
    var m := Pivot(cx, a);
    EraseFrames(cx, a);
    PivotInView(cx, f, a);
    assert Erase(a)[..m] == Erase(a[..m]);
    var fe :| ProgramArrival(cx, Erase(a)[..m], Erase(a)[m], fe, e);
    assert e[m] == fe;
    var root := cx.prog[a[m].fn].root;
    var fr' := fe.(iters := if AtEnd(cx, a[m]) then NextCounters(root, a[m].block, a[m].iters, fe.block)
                   else a[m].iters);
    FrameLifts(cx, a[m], fe, fr');
    if !Refused(cx, a, e) {
      assert !Stranded(cx, a);
      LiftedStep(cx, a, m, fr', fe, e);
    }
    if b :| Step(cx, a, b) && Erase(b) == e {
      var fb :| ArrivesBy(cx, a[..m], Body(root), [], a[m], fb, b);
      assert b[m] == fb;
      assert Bare(fb) == fe;
      FrameLifts(cx, a[m], fe, fb);
    }
  }

  lemma LiftedStep(cx: Config, a: Addr, m: nat, fr': Frame, fe: Frame, e: Addr)
    requires ConfigOk(cx) && |a| > 0 && AllFramesOk(cx, a) && m == Pivot(cx, a) && FrameOk(cx, fe) && !Stranded(cx, a)
    requires Move(cx, a[m], fr') && Bare(fr') == fe && e == Enter(cx, Erase(a[..m]), fe)
    ensures exists b :: Step(cx, a, b) && Erase(b) == e
  {
    MoveOk(cx, Body(cx.prog[a[m].fn].root), [], a[m], fr');
    var b := Enter(cx, a[..m], fr');
    EnterErases(cx, a[..m], fr');
    assert ArrivesBy(cx, a[..m], Body(cx.prog[a[m].fn].root), [], a[m], fr', b);
  }

  /** Edge by edge, the unrolled graph projects to the program. */
  lemma GraphProjects(cx: Config, f: FuncName, addr: seq<Addr>, fwd: map<nat, set<nat>>, r: nat, s: nat)
    requires ConfigOk(cx) && UnrolledGraph(cx, f, addr, fwd) && 2 <= r && 2 <= s && Edge(fwd, r, s)
    ensures r < |addr| && s < |addr| && ProgramStep(cx, Erase(addr[r]), Erase(addr[s]))
  {
    Projection(cx, addr[r], addr[s]);
  }

  /** A program step from the position of node `r` has an edge exactly when it is not refused. */
  lemma GraphLifts(cx: Config, f: FuncName, addr: seq<Addr>, fwd: map<nat, set<nat>>, r: nat, e: Addr)
    requires ConfigOk(cx) && UnrolledGraph(cx, f, addr, fwd) && 2 <= r < |addr| && ProgramStep(cx, Erase(addr[r]), e)
    ensures (exists s: nat :: 2 <= s < |addr| && Edge(fwd, r, s) && Erase(addr[s]) == e) <==> !Refused(cx, addr[r], e)
  {
    hide ConfigOk, Step, ProgramStep, Refused;
    var body := Body(cx.prog[f].root);
    assert InPart(cx, [], f, body, [], addr[r]);
    Lifting(cx, f, addr[r], e);
    if b :| Step(cx, addr[r], b) && Erase(b) == e {
      OutermostSteps(cx, f, addr[r], b);
      RootOk(cx, f);
      StepStays(cx, [], f, body, [], addr[r], b);
      assert Has(addr, 2, |addr|, b);
    }
  }

  // ---------------------------------------------------------------- inlining is bounded

  /** No function is on the call stack more than `limit + 1` times. */
  lemma {:induction false} CallDepthBounded(cx: Config, a: Addr, g: FuncName)
    requires Position(cx, a, 0)
    ensures Count(Names(a), g) <= cx.limit + 1
  {
    DepthUpTo(cx, a, |a|, g);
    assert a[..|a|] == a;
  }

  lemma {:induction false} DepthUpTo(cx: Config, a: Addr, n: nat, g: FuncName)
    requires AllFramesOk(cx, a) && 0 < n <= |a| && forall i :: 0 < i < |a| ==> CalledAt(cx, a, i)
    ensures Count(Names(a[..n]), g) <= cx.limit + 1
    decreases n
  {
    hide Live, InView;
    if n == 1 {
      assert Names(a[..1]) == [a[0].fn];
    } else {
      DepthUpTo(cx, a, n - 1, g);
      NamesSplit(a, n);
      assert CalledAt(cx, a, n - 1);
    }
  }

  lemma NamesSplit(a: Addr, n: nat)
    requires 2 <= n <= |a|
    ensures Names(a[..n]) == Names(a[..n - 1]) + [a[n - 1].fn]
    ensures a[..n - 2] + [a[n - 2]] == a[..n - 1]
  {
  }
}
