/** How laid-out parts of the unrolled graph combine into larger ones. */
module UnrollParts {
  import opened Digraph
  import opened Program
  import opened UnrollSpec

  ghost predicate LoopOf(cx: Config, f: FuncName, l: Loop) {
    f in cx.prog && exists rank :: WellNested(cx.prog[f], rank, l)
  }

  ghost predicate ViewOk(cx: Config, f: FuncName, v: View) {
    f in cx.prog && (v.OneInstr? || v.Chain? || v.Gap? || LoopOf(cx, f, v.l))
  }

  lemma RootOk(cx: Config, f: FuncName)
    requires ConfigOk(cx) && f in cx.prog
    ensures ViewOk(cx, f, Body(cx.prog[f].root))
    ensures InView(cx, Body(cx.prog[f].root), [], StartOf(cx, f))
  {
    assert Reducible(cx.prog[f]);
    var rank :| WellFormed(cx.prog[f], rank);
  }

  lemma SubOk(cx: Config, f: FuncName, l: Loop, i: nat)
    requires LoopOf(cx, f, l) && i < |l.subs|
    ensures LoopOf(cx, f, l.subs[i])
    ensures l.subs[i].blocks <= l.blocks && IsLoop(cx.prog[f], l.subs[i])
    ensures forall b :: b in l.subs[i].blocks ==> SubIndex(l.subs, b) == i
  {
    var rank :| WellNested(cx.prog[f], rank, l);
    assert WellNested(cx.prog[f], rank, l.subs[i]);
  }

  lemma CodeFacts(cx: Config, f: FuncName, b: Block)
    requires ConfigOk(cx) && f in cx.prog && b in cx.prog[f].code
    ensures b in cx.prog[f].succs && |cx.prog[f].code[b]| > 0
    ensures cx.prog[f].succs[b] == {} ==> cx.prog[f].code[b][|cx.prog[f].code[b]| - 1].Plain?
    ensures forall j: nat, iters :: j < |cx.prog[f].code[b]| && Live(cx, f, b) ==> FrameOk(cx, Frame(f, b, j, iters))
  {
    assert Reducible(cx.prog[f]);
    var rank :| WellFormed(cx.prog[f], rank);
  }

  // ---------------------------------------------------------------- Enter

  ghost predicate AtStart(cx: Config, fr: Frame) {
    fr.fn in cx.prog && fr == StartOf(cx, fr.fn)
  }

  lemma CallFromPrefix(cx: Config, a: Addr, p: Addr, fr: Frame)
    requires ConfigOk(cx) && FrameOk(cx, fr) && Inlined(cx, p, fr)
    requires |a| > |p| + 1 && a[..|p| + 1] == p + [fr] && a[|p| + 1] == StartOf(cx, Callee(cx, fr))
    ensures a[..|p|] == p && a[|p|] == fr && CalledAt(cx, a, |p| + 1)
  {
    PrefixOfExtension(a, p, fr);
    RootOk(cx, Callee(cx, fr));
    assert a[..|p| + 1 - 1] == p;
  }

  lemma InlinedCall(cx: Config, p: Addr, fr: Frame)
    requires FrameOk(cx, fr) && Inlined(cx, p, fr)
    ensures cx.prog[fr.fn].code[fr.block][fr.idx].Call? && Callee(cx, fr) in cx.prog
  {
  }

  /** `Enter` yields a position whose deeper frames all stand at function starts. */
  lemma {:induction false} EnterPosition(cx: Config, p: Addr, fr: Frame)
    requires ConfigOk(cx) && FrameOk(cx, fr) && AllFramesOk(cx, p)
    ensures Position(cx, Enter(cx, p, fr), |p|)
    ensures forall i :: |p| < i < |Enter(cx, p, fr)| ==> AtStart(cx, Enter(cx, p, fr)[i])
    decreases RoomAt(cx, p + [fr])
  {
    hide Inlined, InView, FrameOk, RoomAt, CalledAt;
    var a := Enter(cx, p, fr);
    if Inlined(cx, p, fr) {
      InlinedCall(cx, p, fr);
      var fr' := StartOf(cx, Callee(cx, fr));
      StartOk(cx, fr'.fn);
      InliningShrinksRoom(cx, p, fr, fr');
      EnterPosition(cx, p + [fr], fr');
      assert a == Enter(cx, p + [fr], fr');
      CallFromPrefix(cx, a, p, fr);
      OneLevelUp(cx, a, |p|);
    } else {
      assert a == p + [fr];
      assert a[..|a| - 1] == p;
    }
  }

  lemma OneLevelUp(cx: Config, a: Addr, m: nat)
    requires Position(cx, a, m + 1) && CalledAt(cx, a, m + 1)
    ensures Position(cx, a, m)
  {
    hide CalledAt, Inlined, FrameOk;
  }

  // ---------------------------------------------------------------- steps stay in their part

  lemma {:induction false} MoveWithinCounters(cx: Config, f: FuncName, rank: map<Block, nat>, l: Loop,
                                              b: Block, c: seq<nat>, b': Block, c': seq<nat>)
    requires f in cx.prog && WellNested(cx.prog[f], rank, l) && b in l.blocks && b' in l.blocks
    requires b in cx.prog[f].succs && b' in cx.prog[f].succs[b]
    requires CountersOk(cx.k, l, b, c) && MoveWithin(cx.k, l, b, c, b', c')
    ensures CountersOk(cx.k, l, b', c')
    decreases l, 0
  {
    var i, i' := SubIndex(l.subs, b), SubIndex(l.subs, b');
    if i >= 0 && b' in l.subs[i].blocks {
      assert i' == i;
      MoveAroundCounters(cx, f, rank, l.subs[i], b, c, b', c');
    } else if i' >= 0 {
      assert IsLoop(cx.prog[f], l.subs[i']);
      assert b !in l.subs[i'].blocks;
      assert b' == l.subs[i'].header;
      assert WellNested(cx.prog[f], rank, l.subs[i']);
      assert [0][1..] == [];
    }
  }

  lemma {:induction false} MoveAroundCounters(cx: Config, f: FuncName, rank: map<Block, nat>, l: Loop,
                                              b: Block, c: seq<nat>, b': Block, c': seq<nat>)
    requires f in cx.prog && WellNested(cx.prog[f], rank, l) && b in l.blocks && b' in l.blocks
    requires b in cx.prog[f].succs && b' in cx.prog[f].succs[b]
    requires |c| >= 1 && c[0] <= cx.k && CountersOk(cx.k, l, b, c[1..]) && MoveAround(cx.k, l, b, c, b', c')
    ensures |c'| >= 1 && c'[0] <= cx.k && CountersOk(cx.k, l, b', c'[1..])
    decreases l, 1
  {
    if b' != l.header {
      MoveWithinCounters(cx, f, rank, l, b, c[1..], b', c'[1..]);
    } else {
      assert c'[1..] == [];
    }
  }

  lemma MoveStays(cx: Config, f: FuncName, v: View, iters: seq<nat>, fr: Frame, fr': Frame)
    requires ViewOk(cx, f, v) && FrameOk(cx, fr) && fr.fn == f
    requires InView(cx, v, iters, fr) && MoveIn(cx, v, iters, fr, fr')
    ensures InView(cx, v, iters, fr') && fr'.fn == f
  {
    if !NextInstr(cx, fr, fr') {
      var rank :| WellNested(cx.prog[f], rank, v.l);
      var c, c' := fr.iters[|iters|..], fr'.iters[|iters|..];
      match v
      case Parts(l, m, done) =>
        var i := SubIndex(l.subs, fr.block);
        SubOk(cx, f, l, i);
        assert WellNested(cx.prog[f], rank, l.subs[i]);
        MoveAroundCounters(cx, f, rank, l.subs[i], fr.block, c, fr'.block, c');
      case Body(l) => MoveWithinCounters(cx, f, rank, l, fr.block, c, fr'.block, c');
      case Cut(l) => MoveWithinCounters(cx, f, rank, l, fr.block, c, fr'.block, c');
      case Rounds(l, n) => MoveAroundRound(cx, f, rank, l, fr.block, c, fr'.block, c');
      case Unrolled(l) => MoveAroundCounters(cx, f, rank, l, fr.block, c, fr'.block, c');
    }
  }

  lemma MoveAroundRound(cx: Config, f: FuncName, rank: map<Block, nat>, l: Loop,
                        b: Block, c: seq<nat>, b': Block, c': seq<nat>)
    requires f in cx.prog && WellNested(cx.prog[f], rank, l) && b in l.blocks && b' in l.blocks
    requires b in cx.prog[f].succs && b' in cx.prog[f].succs[b]
    requires |c| >= 1 && CountersOk(cx.k, l, b, c[1..]) && MoveAround(cx.k, l, b, c, b', c') && b' != l.header
    ensures |c'| >= 1 && c'[0] == c[0] && CountersOk(cx.k, l, b', c'[1..])
  {
    MoveWithinCounters(cx, f, rank, l, b, c[1..], b', c'[1..]);
  }

  lemma PrefixFacts<T>(a: seq<T>, b: seq<T>, n: nat, i: nat)
    requires i <= n <= |a| && n <= |b| && b[..n] == a[..n]
    ensures b[..i] == a[..i]
    ensures i < n ==> b[i] == a[i]
  {
    assert b[..i] == b[..n][..i] && a[..i] == a[..n][..i];
    if i < n {
      assert b[i] == b[..n][i] && a[i] == a[..n][i];
    }
  }

  lemma CallTransfers(cx: Config, a: Addr, b: Addr, n: nat, i: nat)
    requires 0 < i <= n < |a| && n < |b| && b[..n] == a[..n] && FrameOk(cx, a[i - 1]) && CalledAt(cx, a, i)
    requires i == n ==> b[n].fn == a[n].fn && InView(cx, Body(cx.prog[a[n].fn].root), [], b[n])
    ensures FrameOk(cx, b[i - 1]) && CalledAt(cx, b, i)
  {
    PrefixFacts(a, b, n, i - 1);
    PrefixFacts(a, b, n, i);
  }

  /** Positions may be continued at level `n` by another frame of the same activation. */
  lemma SplicePosition(cx: Config, a: Addr, b: Addr, m: nat, n: nat)
    requires m < n < |a| && n < |b| && Position(cx, a, m) && Position(cx, b, n) && b[..n] == a[..n]
    requires b[n].fn == a[n].fn && InView(cx, Body(cx.prog[a[n].fn].root), [], b[n])
    ensures Position(cx, b, m)
  {
    forall i | m < i < |b|
      ensures CalledAt(cx, b, i)
    {
      if i <= n {
        assert CalledAt(cx, a, i);
        CallTransfers(cx, a, b, n, i);
      }
    }
  }

  /** A step at a level above `m` keeps the frames up to `m`. */
  lemma DeepStep(cx: Config, a: Addr, b: Addr, m: nat) returns (fr': Frame)
    requires ConfigOk(cx) && m < |a| && Position(cx, a, m) && Step(cx, a, b) && Pivot(cx, a) > m
    ensures |b| > m && b[..m + 1] == a[..m + 1] && Position(cx, b, m)
    ensures ArrivesBy(cx, a[..Pivot(cx, a)], Body(cx.prog[a[Pivot(cx, a)].fn].root), [], a[Pivot(cx, a)], fr', b)
  {
    hide Inlined, Enter, MoveIn, Live;
    var n := Pivot(cx, a);
    var root := Body(cx.prog[a[n].fn].root);
    fr' :| ArrivesBy(cx, a[..n], root, [], a[n], fr', b);
    assert CalledAt(cx, a, n);
    MoveOk(cx, root, [], a[n], fr');
    RootOk(cx, a[n].fn);
    MoveStays(cx, a[n].fn, root, [], a[n], fr');
    EnterPosition(cx, a[..n], fr');
    PrefixFacts(a, b, n, m + 1);
    SplicePosition(cx, a, b, m, n);
  }

  lemma ArrivalStays(cx: Config, p: Addr, f: FuncName, v: View, iters: seq<nat>, fr: Frame, fr': Frame, b: Addr)
    requires ConfigOk(cx) && ViewOk(cx, f, v) && AllFramesOk(cx, p) && FrameOk(cx, fr) && fr.fn == f
    requires InView(cx, v, iters, fr) && ArrivesBy(cx, p, v, iters, fr, fr', b)
    ensures InPart(cx, p, f, v, iters, b)
  {
    MoveOk(cx, v, iters, fr, fr');
    MoveStays(cx, f, v, iters, fr, fr');
    EnterPosition(cx, p, fr');
  }

  lemma StepStays(cx: Config, p: Addr, f: FuncName, v: View, iters: seq<nat>, a: Addr, b: Addr)
    requires ConfigOk(cx) && ViewOk(cx, f, v) && AllFramesOk(cx, p)
    requires InPart(cx, p, f, v, iters, a) && StepIn(cx, p, v, iters, a, b)
    ensures InPart(cx, p, f, v, iters, b)
  {
    hide ConfigOk, ViewOk, InView, Inlined, MoveIn, Enter, FrameOk;
    if Pivot(cx, a) > |p| {
      var _ := DeepStep(cx, a, b, |p|);
      PrefixFacts(a, b, |p| + 1, |p|);
    } else {
      var fr' :| ArrivesBy(cx, p, v, iters, a[|p|], fr', b);
      ArrivalStays(cx, p, f, v, iters, a[|p|], fr', b);
    }
  }

  // ---------------------------------------------------------------- combining parts

  /** On the frames of `v1`, the larger part `v` has the same moves. */
  ghost predicate SameMoves(cx: Config, f: FuncName, v1: View, i1: seq<nat>, v: View, iters: seq<nat>) {
    forall fr, fr' :: FrameOk(cx, fr) && fr.fn == f && InView(cx, v1, i1, fr) ==>
      (MoveIn(cx, v, iters, fr, fr') <==> MoveIn(cx, v1, i1, fr, fr'))
  }

  /** `v` consists of the disjoint parts `v1` and `v2`. */
  ghost predicate Splits(cx: Config, f: FuncName, v: View, iters: seq<nat>, v1: View, i1: seq<nat>, v2: View,
                         i2: seq<nat>) {
    forall fr :: FrameOk(cx, fr) && fr.fn == f ==>
      && (InView(cx, v, iters, fr) <==> InView(cx, v1, i1, fr) || InView(cx, v2, i2, fr))
      && !(InView(cx, v1, i1, fr) && InView(cx, v2, i2, fr))
  }

  lemma SameSteps(cx: Config, p: Addr, f: FuncName, v1: View, i1: seq<nat>, v: View, iters: seq<nat>, a: Addr, b: Addr)
    requires ConfigOk(cx) && InPart(cx, p, f, v1, i1, a) && SameMoves(cx, f, v1, i1, v, iters)
    ensures StepIn(cx, p, v, iters, a, b) <==> StepIn(cx, p, v1, i1, a, b)
  {
    if Pivot(cx, a) == |p| {
      forall fr'
        ensures ArrivesBy(cx, p, v, iters, a[|p|], fr', b) <==> ArrivesBy(cx, p, v1, i1, a[|p|], fr', b)
      {
        assert MoveIn(cx, v, iters, a[|p|], fr') <==> MoveIn(cx, v1, i1, a[|p|], fr');
      }
    }
  }

  lemma MergeEdges(cx: Config, addr: seq<Addr>, fwd: map<nat, set<nat>>, lo1: nat, hi1: nat, lo: nat, hi: nat,
                   p: Addr, f: FuncName, v: View, iters: seq<nat>, v1: View, i1: seq<nat>, r: nat, s: nat)
    requires ConfigOk(cx) && AllFramesOk(cx, p) && ViewOk(cx, f, v1)
    requires LaidOut(cx, addr, fwd, lo1, hi1, p, f, v1, i1) && lo <= lo1 <= r < hi1 <= hi <= |addr|
    requires SameMoves(cx, f, v1, i1, v, iters)
    requires lo <= s < hi && !(lo1 <= s < hi1) ==> !InPart(cx, p, f, v1, i1, addr[s])
    ensures Edge(fwd, r, s) <==> lo <= s < hi && StepIn(cx, p, v, iters, addr[r], addr[s])
  {
    if lo <= s < hi {
      SameSteps(cx, p, f, v1, i1, v, iters, addr[r], addr[s]);
      if StepIn(cx, p, v1, i1, addr[r], addr[s]) {
        StepStays(cx, p, f, v1, i1, addr[r], addr[s]);
      }
    }
  }

  lemma MergeCovers(cx: Config, addr: seq<Addr>, lo: nat, mid: nat, hi: nat, p: Addr, f: FuncName,
                    v: View, iters: seq<nat>, v1: View, i1: seq<nat>, v2: View, i2: seq<nat>)
    requires Covers(cx, addr, lo, mid, p, f, v1, i1)
    requires Covers(cx, addr, mid, hi, p, f, v2, i2)
    requires Splits(cx, f, v, iters, v1, i1, v2, i2)
    ensures Covers(cx, addr, lo, hi, p, f, v, iters)
    ensures forall s :: lo <= s < mid ==> !InPart(cx, p, f, v2, i2, addr[s])
    ensures forall s :: mid <= s < hi ==> !InPart(cx, p, f, v1, i1, addr[s])
  {
    hide InPart, Splits;
    forall a
      ensures InPart(cx, p, f, v, iters, a) <==> InPart(cx, p, f, v1, i1, a) || InPart(cx, p, f, v2, i2, a)
      ensures !(InPart(cx, p, f, v1, i1, a) && InPart(cx, p, f, v2, i2, a))
    {
      PartSplits(cx, p, f, v, iters, v1, i1, v2, i2, a);
    }
    forall a | InPart(cx, p, f, v, iters, a)
      ensures Has(addr, lo, hi, a)
    {
      if InPart(cx, p, f, v1, i1, a) {
        assert Has(addr, lo, mid, a);
      } else {
        assert Has(addr, mid, hi, a);
      }
    }
  }

  lemma PartSplits(cx: Config, p: Addr, f: FuncName,
                   v: View, iters: seq<nat>, v1: View, i1: seq<nat>, v2: View, i2: seq<nat>, a: Addr)
    requires Splits(cx, f, v, iters, v1, i1, v2, i2)
    ensures InPart(cx, p, f, v, iters, a) <==> InPart(cx, p, f, v1, i1, a) || InPart(cx, p, f, v2, i2, a)
    ensures !(InPart(cx, p, f, v1, i1, a) && InPart(cx, p, f, v2, i2, a))
  {
  }

  lemma Merge(cx: Config, addr: seq<Addr>, fwd: map<nat, set<nat>>, lo: nat, mid: nat, hi: nat, p: Addr, f: FuncName,
              v: View, iters: seq<nat>, v1: View, i1: seq<nat>, v2: View, i2: seq<nat>)
    requires ConfigOk(cx) && AllFramesOk(cx, p) && ViewOk(cx, f, v1) && ViewOk(cx, f, v2)
    requires LaidOut(cx, addr, fwd, lo, mid, p, f, v1, i1)
    requires LaidOut(cx, addr, fwd, mid, hi, p, f, v2, i2)
    requires Splits(cx, f, v, iters, v1, i1, v2, i2)
    requires SameMoves(cx, f, v1, i1, v, iters) && SameMoves(cx, f, v2, i2, v, iters)
    ensures LaidOut(cx, addr, fwd, lo, hi, p, f, v, iters)
  {
    MergeCovers(cx, addr, lo, mid, hi, p, f, v, iters, v1, i1, v2, i2);
    forall r: nat, s: nat | lo <= r < hi
      ensures Edge(fwd, r, s) <==> lo <= s < hi && StepIn(cx, p, v, iters, addr[r], addr[s])
    {
      if r < mid {
        MergeEdges(cx, addr, fwd, lo, mid, lo, hi, p, f, v, iters, v1, i1, r, s);
      } else {
        MergeEdges(cx, addr, fwd, mid, hi, lo, hi, p, f, v, iters, v2, i2, r, s);
      }
    }
  }

  /** New edges turn part `v1` into part `v` when they are the moves that `v` adds. */
  ghost predicate AddedBy(cx: Config, addr: seq<Addr>, lo: nat, hi: nat, p: Addr, v: View, iters: seq<nat>, v1: View,
                          i1: seq<nat>, links: set<(nat, nat)>)
    requires ConfigOk(cx) && hi <= |addr|
  {
    && (forall e :: e in links ==> lo <= e.0 < hi && lo <= e.1 < hi)
    && (forall r: nat, s: nat :: lo <= r < hi && lo <= s < hi ==>
          (StepIn(cx, p, v, iters, addr[r], addr[s]) <==> StepIn(cx, p, v1, i1, addr[r], addr[s]) || (r, s) in links))
  }

  ghost predicate SameViews(cx: Config, f: FuncName, v: View, iters: seq<nat>, v1: View, i1: seq<nat>) {
    forall fr :: FrameOk(cx, fr) && fr.fn == f ==> (InView(cx, v, iters, fr) <==> InView(cx, v1, i1, fr))
  }

  lemma SameCovers(cx: Config, addr: seq<Addr>, lo: nat, hi: nat, p: Addr, f: FuncName, v: View, iters: seq<nat>,
                   v1: View, i1: seq<nat>)
    requires Covers(cx, addr, lo, hi, p, f, v1, i1) && SameViews(cx, f, v, iters, v1, i1)
    ensures Covers(cx, addr, lo, hi, p, f, v, iters)
  {
    forall a: Addr
      ensures InPart(cx, p, f, v, iters, a) <==> InPart(cx, p, f, v1, i1, a)
    {
      assert |a| > |p| && FrameOk(cx, a[|p|]) && a[|p|].fn == f ==>
        (InView(cx, v, iters, a[|p|]) <==> InView(cx, v1, i1, a[|p|]));
    }
  }

  lemma Relink(cx: Config, addr: seq<Addr>, fwd: map<nat, set<nat>>, fwd': map<nat, set<nat>>, lo: nat, hi: nat,
               p: Addr, f: FuncName, v: View, iters: seq<nat>, v1: View, i1: seq<nat>, links: set<(nat, nat)>)
    requires ConfigOk(cx) && LaidOut(cx, addr, fwd, lo, hi, p, f, v1, i1)
    requires SameViews(cx, f, v, iters, v1, i1) && AddedBy(cx, addr, lo, hi, p, v, iters, v1, i1, links)
    requires forall r: nat, s: nat :: Edge(fwd', r, s) <==> Edge(fwd, r, s) || (r, s) in links
    ensures LaidOut(cx, addr, fwd', lo, hi, p, f, v, iters)
  {
    hide InPart, SameViews, StepIn;
    SameCovers(cx, addr, lo, hi, p, f, v, iters, v1, i1);
  }

  // ---------------------------------------------------------------- one instruction

  /** A call's activation is what the call instruction contributes to its block. */
  lemma InlinedWhole(cx: Config, p: Addr, fr: Frame, a: Addr)
    requires ConfigOk(cx) && AllFramesOk(cx, p) && FrameOk(cx, fr) && Inlined(cx, p, fr)
    requires InPart(cx, p, fr.fn, OneInstr(fr.block, fr.idx), fr.iters, a)
    ensures |a| > |p| && a[|p|] == fr && InPart(cx, p + [fr], Callee(cx, fr), Body(cx.prog[Callee(cx, fr)].root), [], a)
  {
    hide Inlined, CountersOk;
    assert a[|p|].iters == fr.iters;
    assert a[|p|] == fr;
    assert a[..|p| + 1] == p + [fr];
    assert |a| > |p| + 1;
    assert CalledAt(cx, a, |p| + 1);
  }

  lemma InlinedBack(cx: Config, p: Addr, fr: Frame, a: Addr)
    requires ConfigOk(cx) && AllFramesOk(cx, p) && FrameOk(cx, fr) && Inlined(cx, p, fr)
    requires InPart(cx, p + [fr], Callee(cx, fr), Body(cx.prog[Callee(cx, fr)].root), [], a)
    ensures InPart(cx, p, fr.fn, OneInstr(fr.block, fr.idx), fr.iters, a)
  {
    hide Inlined, CountersOk;
    PrefixOfExtension(a, p, fr);
    assert a[..|p| + 1 - 1] == p;
    assert CalledAt(cx, a, |p| + 1);
    forall i | |p| < i < |a|
      ensures CalledAt(cx, a, i)
    {
    }
  }

  lemma InlinedPart(cx: Config, p: Addr, fr: Frame, a: Addr, b: Addr)
    requires ConfigOk(cx) && AllFramesOk(cx, p) && FrameOk(cx, fr) && Inlined(cx, p, fr)
    ensures InPart(cx, p, fr.fn, OneInstr(fr.block, fr.idx), fr.iters, a) <==>
            InPart(cx, p + [fr], Callee(cx, fr), Body(cx.prog[Callee(cx, fr)].root), [], a)
    ensures InPart(cx, p, fr.fn, OneInstr(fr.block, fr.idx), fr.iters, a) ==>
            (StepIn(cx, p, OneInstr(fr.block, fr.idx), fr.iters, a, b) <==>
             StepIn(cx, p + [fr], Body(cx.prog[Callee(cx, fr)].root), [], a, b))
  {
    hide InPart;
    if InPart(cx, p + [fr], Callee(cx, fr), Body(cx.prog[Callee(cx, fr)].root), [], a) {
      InlinedBack(cx, p, fr, a);
    }
    if InPart(cx, p, fr.fn, OneInstr(fr.block, fr.idx), fr.iters, a) {
      InlinedWhole(cx, p, fr, a);
      InlinedSteps(cx, p, fr, a, b);
    }
  }

  lemma InlinedSteps(cx: Config, p: Addr, fr: Frame, a: Addr, b: Addr)
    requires ConfigOk(cx) && FrameOk(cx, fr) && Inlined(cx, p, fr) && |p| < |a| && a[|p|] == fr
    requires InPart(cx, p + [fr], Callee(cx, fr), Body(cx.prog[Callee(cx, fr)].root), [], a)
    ensures StepIn(cx, p, OneInstr(fr.block, fr.idx), fr.iters, a, b) <==>
            StepIn(cx, p + [fr], Body(cx.prog[Callee(cx, fr)].root), [], a, b)
  {
    hide InView, Enter, Inlined;
    assert a[..|p| + 1] == p + [fr];
  }

  // ---------------------------------------------------------------- blocks

  /** The end of an instruction's part: control leaves the instruction from here. */
  ghost predicate Leaves(cx: Config, p: Addr, a: Addr) {
    |a| > 0 && AllFramesOk(cx, a) && Pivot(cx, a) <= |p|
  }

  lemma GapSplits(cx: Config, f: FuncName, b: Block, n: nat, iters: seq<nat>)
    ensures Splits(cx, f, Gap(b, n), iters, Chain(b, n), iters, OneInstr(b, n), iters)
    ensures SameMoves(cx, f, Chain(b, n), iters, Gap(b, n), iters)
    ensures SameMoves(cx, f, OneInstr(b, n), iters, Gap(b, n), iters)
    ensures SameViews(cx, f, Chain(b, n + 1), iters, Gap(b, n), iters)
  {
  }

  /** The moves that the next instruction adds to a block start where the previous one ends. */
  lemma ChainLinks(cx: Config, p: Addr, f: FuncName, b: Block, n: nat, iters: seq<nat>, a: Addr, x: Addr)
    requires ConfigOk(cx) && InPart(cx, p, f, Gap(b, n), iters, a)
    requires n > 0 ==> FrameOk(cx, Frame(f, b, n, iters))
    ensures StepIn(cx, p, Chain(b, n + 1), iters, a, x) <==>
            StepIn(cx, p, Gap(b, n), iters, a, x) ||
            (n > 0 && a[|p|].idx == n - 1 && Pivot(cx, a) == |p| && x == Enter(cx, p, Frame(f, b, n, iters)))
  {
    var fr := a[|p|];
    var next := fr.(idx := fr.idx + 1);
    assert fr.iters == iters;
    if Pivot(cx, a) == |p| {
      if StepIn(cx, p, Chain(b, n + 1), iters, a, x) {
        var fr' :| ArrivesBy(cx, p, Chain(b, n + 1), iters, fr, fr', x);
        assert fr' == next;
        if fr'.idx < n {
          assert ArrivesBy(cx, p, Gap(b, n), iters, fr, fr', x);
        }
      }
      if StepIn(cx, p, Gap(b, n), iters, a, x) {
        var fr' :| ArrivesBy(cx, p, Gap(b, n), iters, fr, fr', x);
        assert ArrivesBy(cx, p, Chain(b, n + 1), iters, fr, fr', x);
      }
      if n > 0 && fr.idx == n - 1 && x == Enter(cx, p, Frame(f, b, n, iters)) {
        assert next == Frame(f, b, n, iters);
        assert ArrivesBy(cx, p, Chain(b, n + 1), iters, fr, next, x);
      }
    }
  }

  // ---------------------------------------------------------------- loop bodies

  ghost function PlainBlocks(l: Loop): set<Block> {
    set b | b in l.blocks && SubIndex(l.subs, b) < 0
  }

  lemma PartsTakeLoop(cx: Config, f: FuncName, l: Loop, m: nat, iters: seq<nat>)
    requires LoopOf(cx, f, l) && m < |l.subs|
    ensures Splits(cx, f, Parts(l, m + 1, {}), iters, Parts(l, m, {}), iters, Unrolled(l.subs[m]), iters)
    ensures SameMoves(cx, f, Parts(l, m, {}), iters, Parts(l, m + 1, {}), iters)
    ensures SameMoves(cx, f, Unrolled(l.subs[m]), iters, Parts(l, m + 1, {}), iters)
  {
    SubOk(cx, f, l, m);
  }

  lemma PartsTakeBlock(cx: Config, f: FuncName, l: Loop, done: set<Block>, b: Block, n: nat, iters: seq<nat>)
    requires LoopOf(cx, f, l) && b in PlainBlocks(l) && b !in done && b in cx.prog[f].code && n == |cx.prog[f].code[b]|
    ensures Splits(cx, f, Parts(l, |l.subs|, done + {b}), iters, Parts(l, |l.subs|, done), iters, Chain(b, n), iters)
    ensures SameMoves(cx, f, Parts(l, |l.subs|, done), iters, Parts(l, |l.subs|, done + {b}), iters)
    ensures SameMoves(cx, f, Chain(b, n), iters, Parts(l, |l.subs|, done + {b}), iters)
  {
  }

  lemma PartsMakeBody(cx: Config, f: FuncName, l: Loop, iters: seq<nat>)
    ensures SameViews(cx, f, Body(l), iters, Parts(l, |l.subs|, PlainBlocks(l)), iters)
  {
  }

  /** Control passes from the end of a component of `l` to another component. */
  ghost predicate Hop(cx: Config, p: Addr, f: FuncName, l: Loop, iters: seq<nat>, a: Addr, d: Block) {
    && f in cx.prog
    && |a| == |p| + 1
    && a[|p|].fn == f
    && FrameOk(cx, a[|p|])
    && AtEnd(cx, a[|p|])
    && d in cx.prog[f].succs[a[|p|].block]
    && d in l.blocks
    && !(SubIndex(l.subs, a[|p|].block) >= 0 && d in l.subs[SubIndex(l.subs, a[|p|].block)].blocks)
  }

  ghost function HopTarget(f: FuncName, l: Loop, iters: seq<nat>, d: Block): Frame {
    Frame(f, d, 0, iters + Fresh(l, d))
  }

  lemma BodyLinks(cx: Config, p: Addr, f: FuncName, l: Loop, iters: seq<nat>, a: Addr, x: Addr)
    requires ConfigOk(cx) && LoopOf(cx, f, l)
    requires InPart(cx, p, f, Parts(l, |l.subs|, PlainBlocks(l)), iters, a)
    ensures StepIn(cx, p, Body(l), iters, a, x) <==>
            StepIn(cx, p, Parts(l, |l.subs|, PlainBlocks(l)), iters, a, x) ||
            exists d ::
                Hop(cx, p, f, l, iters, a, d) && FrameOk(cx, HopTarget(f, l, iters, d)) &&
                  x == Enter(cx, p, HopTarget(f, l, iters, d))
  {
    var parts := Parts(l, |l.subs|, PlainBlocks(l));
    var fr := a[|p|];
    if Pivot(cx, a) == |p| {
      if StepIn(cx, p, Body(l), iters, a, x) {
        var fr' :| ArrivesBy(cx, p, Body(l), iters, fr, fr', x);
        MoveOk(cx, Body(l), iters, fr, fr');
        if MoveIn(cx, parts, iters, fr, fr') {
          assert ArrivesBy(cx, p, parts, iters, fr, fr', x);
        } else {
          EndIsTop(cx, p, f, a);
          assert fr'.iters == iters + fr'.iters[|iters|..];
          assert fr' == HopTarget(f, l, iters, fr'.block);
          assert Hop(cx, p, f, l, iters, a, fr'.block);
        }
      }
      if StepIn(cx, p, parts, iters, a, x) {
        var fr' :| ArrivesBy(cx, p, parts, iters, fr, fr', x);
        assert ArrivesBy(cx, p, Body(l), iters, fr, fr', x);
      }
    }
    if AtEnd(cx, fr) {
      EndIsTop(cx, p, f, a);
    }
    if d :| Hop(cx, p, f, l, iters, a, d) && FrameOk(cx, HopTarget(f, l, iters, d)) &&
            x == Enter(cx, p, HopTarget(f, l, iters, d))
    {
      var fr' := HopTarget(f, l, iters, d);
      assert fr'.iters[..|iters|] == iters && fr'.iters[|iters|..] == Fresh(l, d);
      assert ArrivesBy(cx, p, Body(l), iters, fr, fr', x);
    }
  }

  /** A position stands at the end of a block itself exactly when the block's last instruction
      is not an inlined call. */
  lemma EndIsTop(cx: Config, p: Addr, f: FuncName, a: Addr)
    requires |a| > |p| && a[..|p|] == p && Position(cx, a, |p|) && a[|p|].fn == f && AtEnd(cx, a[|p|])
    ensures |a| == |p| + 1 <==> !Inlined(cx, p, a[|p|])
  {
    hide Inlined;
    if |a| > |p| + 1 {
      assert CalledAt(cx, a, |p| + 1);
    }
  }

  // ---------------------------------------------------------------- iterations

  lemma RoundsTakeCut(cx: Config, f: FuncName, l: Loop, n: nat, iters: seq<nat>)
    requires LoopOf(cx, f, l)
    ensures Splits(cx, f, Rounds(l, n + 1), iters, Rounds(l, n), iters, Cut(l), iters + [n])
    ensures SameMoves(cx, f, Rounds(l, n), iters, Rounds(l, n + 1), iters)
    ensures SameMoves(cx, f, Cut(l), iters + [n], Rounds(l, n + 1), iters)
  {
  }

  lemma RoundsMakeLoop(cx: Config, f: FuncName, l: Loop, iters: seq<nat>)
    ensures SameViews(cx, f, Unrolled(l), iters, Rounds(l, cx.k + 1), iters)
    ensures SameViews(cx, f, Cut(l), iters, Body(l), iters)
  {
  }

  ghost function HeaderFrame(f: FuncName, l: Loop, iters: seq<nat>): Frame {
    Frame(f, l.header, 0, iters)
  }

  lemma HeaderOk(cx: Config, f: FuncName, l: Loop, iters: seq<nat>)
    requires ConfigOk(cx) && LoopOf(cx, f, l) && (l == cx.prog[f].root || IsLoop(cx.prog[f], l))
    ensures FrameOk(cx, HeaderFrame(f, l, iters))
    ensures InView(cx, Body(l), iters, HeaderFrame(f, l, iters))
  {
    assert Reducible(cx.prog[f]);
    var rank :| WellFormed(cx.prog[f], rank);
    var rank' :| WellNested(cx.prog[f], rank', l);
  }

  /** `a` ends a block that has `l`'s header among its successors. */
  ghost predicate GoesBack(cx: Config, p: Addr, f: FuncName, l: Loop, a: Addr) {
    && f in cx.prog
    && |a| == |p| + 1
    && a[|p|].fn == f
    && FrameOk(cx, a[|p|])
    && AtEnd(cx, a[|p|])
    && a[|p|].block in l.blocks
    && l.header in cx.prog[f].succs[a[|p|].block]
  }

  /** The machine never moves to the start of a function. */
  lemma NoMoveToStart(cx: Config, fr: Frame, fr': Frame)
    requires ConfigOk(cx) && FrameOk(cx, fr) && Move(cx, fr, fr')
    ensures !AtStart(cx, fr')
  {
    assert Reducible(cx.prog[fr.fn]);
    var rank :| WellFormed(cx.prog[fr.fn], rank);
  }

  /** No step at a deeper level arrives where control enters `fr`. */
  lemma DeepStepMissesEntry(cx: Config, p: Addr, fr: Frame, a: Addr, x: Addr)
    requires ConfigOk(cx) && AllFramesOk(cx, p) && FrameOk(cx, fr)
    requires |a| > |p| && a[..|p|] == p && Position(cx, a, |p|) && Pivot(cx, a) > |p| && Step(cx, a, x)
    ensures x != Enter(cx, p, fr)
  {
    EnterPosition(cx, p, fr);
    var fr' := DeepStep(cx, a, x, |p|);
    var n := Pivot(cx, a);
    NoMoveToStart(cx, a[n], fr');
    assert x[n] == fr';
  }

  /** Inside one iteration, the edges into the header's entry are the edges back to the header. */
  lemma BackEdges(cx: Config, p: Addr, f: FuncName, l: Loop, iters: seq<nat>, a: Addr, x: Addr)
    requires ConfigOk(cx) && AllFramesOk(cx, p) && LoopOf(cx, f, l) && FrameOk(cx, HeaderFrame(f, l, iters))
    requires InPart(cx, p, f, Body(l), iters, a)
    ensures StepIn(cx, p, Cut(l), iters, a, x) <==>
            StepIn(cx, p, Body(l), iters, a, x) && x != Enter(cx, p, HeaderFrame(f, l, iters))
    ensures StepIn(cx, p, Body(l), iters, a, Enter(cx, p, HeaderFrame(f, l, iters))) <==> GoesBack(cx, p, f, l, a)
  {
    hide ConfigOk, Live;
    var fr, h := a[|p|], HeaderFrame(f, l, iters);
    if Pivot(cx, a) > |p| {
      if Step(cx, a, x) {
        DeepStepMissesEntry(cx, p, h, a, x);
      }
      if Step(cx, a, Enter(cx, p, h)) {
        DeepStepMissesEntry(cx, p, h, a, Enter(cx, p, h));
        assert false;
      }
      assert |a| > |p| + 1;
    } else if Pivot(cx, a) == |p| {
      if StepIn(cx, p, Cut(l), iters, a, x) {
        var fr' :| ArrivesBy(cx, p, Cut(l), iters, fr, fr', x);
        assert ArrivesBy(cx, p, Body(l), iters, fr, fr', x);
        assert x[|p|] == fr';
        assert fr' != h;
      }
      if StepIn(cx, p, Body(l), iters, a, x) && x != Enter(cx, p, h) {
        var fr' :| ArrivesBy(cx, p, Body(l), iters, fr, fr', x);
        BodyMoveToHeader(cx, f, l, iters, fr, fr');
        assert ArrivesBy(cx, p, Cut(l), iters, fr, fr', x);
      }
      if StepIn(cx, p, Body(l), iters, a, Enter(cx, p, h)) {
        var fr' :| ArrivesBy(cx, p, Body(l), iters, fr, fr', Enter(cx, p, h));
        assert Enter(cx, p, h)[|p|] == fr';
        EndIsTop(cx, p, f, a);
      }
      if GoesBack(cx, p, f, l, a) {
        var rank :| WellNested(cx.prog[f], rank, l);
        assert h.iters[|iters|..] == [] && h.iters[..|iters|] == iters;
        assert MoveWithin(cx.k, l, fr.block, fr.iters[|iters|..], l.header, []);
        assert ArrivesBy(cx, p, Body(l), iters, fr, h, Enter(cx, p, h));
      }
    } else {
      assert !GoesBack(cx, p, f, l, a);
    }
  }

  lemma BodyMoveToHeader(cx: Config, f: FuncName, l: Loop, iters: seq<nat>, fr: Frame, fr': Frame)
    requires LoopOf(cx, f, l) && FrameOk(cx, fr) && fr.fn == f && MoveIn(cx, Body(l), iters, fr, fr')
    ensures fr' == HeaderFrame(f, l, iters) || MoveIn(cx, Cut(l), iters, fr, fr')
  {
    var rank :| WellNested(cx.prog[f], rank, l);
    if !NextInstr(cx, fr, fr') && fr'.block == l.header {
      var i := SubIndex(l.subs, fr.block);
      assert i >= 0 ==> l.header !in l.subs[i].blocks;
      assert fr'.iters == fr'.iters[..|iters|] + fr'.iters[|iters|..];
    }
  }

  /** A move of the finished loop stays in its iteration or begins the next one. */
  lemma GlueMove(cx: Config, f: FuncName, l: Loop, iters: seq<nat>, fr: Frame, fr': Frame)
    requires LoopOf(cx, f, l) && FrameOk(cx, fr) && fr.fn == f && InView(cx, Rounds(l, cx.k + 1), iters, fr)
    ensures MoveIn(cx, Unrolled(l), iters, fr, fr') <==>
            MoveIn(cx, Rounds(l, cx.k + 1), iters, fr, fr') ||
            (AtEnd(cx, fr) && l.header in cx.prog[f].succs[fr.block] && fr.iters[|iters|] < cx.k &&
             fr' == HeaderFrame(f, l, iters + [fr.iters[|iters|] + 1]))
  {
    var h := HeaderFrame(f, l, iters + [fr.iters[|iters|] + 1]);
    assert h.iters[..|iters|] == iters && h.iters[|iters|..] == [fr.iters[|iters|] + 1];
    var rank :| WellNested(cx.prog[f], rank, l);
    if BlockMove(cx, l, iters, fr, fr') {
      assert fr'.iters == fr'.iters[..|iters|] + fr'.iters[|iters|..];
    }
  }

  lemma GlueArrival(cx: Config, p: Addr, f: FuncName, l: Loop, iters: seq<nat>, fr: Frame, fr': Frame, x: Addr)
    requires ConfigOk(cx) && LoopOf(cx, f, l) && FrameOk(cx, fr) && fr.fn == f
    requires InView(cx, Rounds(l, cx.k + 1), iters, fr)
    requires FrameOk(cx, HeaderFrame(f, l, iters + [fr.iters[|iters|] + 1]))
    ensures ArrivesBy(cx, p, Unrolled(l), iters, fr, fr', x) <==>
            ArrivesBy(cx, p, Rounds(l, cx.k + 1), iters, fr, fr', x) ||
            (AtEnd(cx, fr) && !Inlined(cx, p, fr) && l.header in cx.prog[f].succs[fr.block] &&
             fr.iters[|iters|] < cx.k &&
             fr' == HeaderFrame(f, l, iters + [fr.iters[|iters|] + 1]) && x == Enter(cx, p, fr'))
  {
    GlueMove(cx, f, l, iters, fr, fr');
    hide MoveIn, InView, Inlined;
    assert MoveIn(cx, Rounds(l, cx.k + 1), iters, fr, fr') ==> MoveIn(cx, Unrolled(l), iters, fr, fr');
  }

  /** The moves that gluing iterations adds go from an edge back in one iteration to the next iteration. */
  lemma GlueLinks(cx: Config, p: Addr, f: FuncName, l: Loop, iters: seq<nat>, a: Addr, x: Addr)
    requires ConfigOk(cx) && LoopOf(cx, f, l) && InPart(cx, p, f, Rounds(l, cx.k + 1), iters, a)
    requires FrameOk(cx, HeaderFrame(f, l, iters + [a[|p|].iters[|iters|] + 1]))
    ensures StepIn(cx, p, Unrolled(l), iters, a, x) <==>
            StepIn(cx, p, Rounds(l, cx.k + 1), iters, a, x) ||
            (GoesBack(cx, p, f, l, a) && a[|p|].iters[|iters|] < cx.k &&
             x == Enter(cx, p, HeaderFrame(f, l, iters + [a[|p|].iters[|iters|] + 1])))
  {
    assert a[|p|].block in l.blocks && a[|p|].fn == f && FrameOk(cx, a[|p|]);
    if AtEnd(cx, a[|p|]) {
      EndIsTop(cx, p, f, a);
    }
    GlueSteps(cx, p, f, l, iters, a, x);
  }

  lemma GlueSteps(cx: Config, p: Addr, f: FuncName, l: Loop, iters: seq<nat>, a: Addr, x: Addr)
    requires ConfigOk(cx) && LoopOf(cx, f, l) && |a| > |p| && AllFramesOk(cx, a) && a[|p|].fn == f
    requires InView(cx, Rounds(l, cx.k + 1), iters, a[|p|])
    requires AtEnd(cx, a[|p|]) ==> (|a| == |p| + 1 <==> !Inlined(cx, p, a[|p|]))
    requires a[|p|].block in l.blocks && |a[|p|].iters| > |iters|
    requires FrameOk(cx, HeaderFrame(f, l, iters + [a[|p|].iters[|iters|] + 1]))
    ensures StepIn(cx, p, Unrolled(l), iters, a, x) <==>
            StepIn(cx, p, Rounds(l, cx.k + 1), iters, a, x) ||
            (GoesBack(cx, p, f, l, a) && a[|p|].iters[|iters|] < cx.k &&
             x == Enter(cx, p, HeaderFrame(f, l, iters + [a[|p|].iters[|iters|] + 1])))
  {
    hide ArrivesBy, InView, InPart, Position, ConfigOk, LoopOf, Step, Inlined;
    var fr := a[|p|];
    var h := HeaderFrame(f, l, iters + [fr.iters[|iters|] + 1]);
    assert GoesBack(cx, p, f, l, a) ==> !AtExit(cx, fr) && Pivot(cx, a) == |p|;
    forall fr'
      ensures ArrivesBy(cx, p, Unrolled(l), iters, fr, fr', x) <==>
              ArrivesBy(cx, p, Rounds(l, cx.k + 1), iters, fr, fr', x) ||
              (AtEnd(cx, fr) && !Inlined(cx, p, fr) && l.header in cx.prog[f].succs[fr.block] &&
               fr.iters[|iters|] < cx.k &&
               fr' == h && x == Enter(cx, p, h))
    {
      GlueArrival(cx, p, f, l, iters, fr, fr', x);
    }
    if AtEnd(cx, fr) && !Inlined(cx, p, fr) && l.header in cx.prog[f].succs[fr.block] && fr.iters[|iters|] < cx.k &&
      x == Enter(cx, p, h) {
      assert ArrivesBy(cx, p, Unrolled(l), iters, fr, h, x);
    }
    if Pivot(cx, a) == |p| && StepIn(cx, p, Rounds(l, cx.k + 1), iters, a, x) {
      var fr' :| ArrivesBy(cx, p, Rounds(l, cx.k + 1), iters, fr, fr', x);
      assert ArrivesBy(cx, p, Unrolled(l), iters, fr, fr', x);
    }
  }
}
