/** Whole runs of the program, calls and returns included, against paths of the
    unrolled graph: erasing the counters maps the paths from the graph's entry one to
    one onto the runs in which no activation ever stays in a loop for more returns to
    its header than the number of unrolls. */
module UnrollRuns {
  import opened Digraph
  import opened Program
  import opened UnrollSpec
  import opened UnrollParts
  import opened Unroll
  import opened UnrollTheorems
  import opened UnrollCounts

  // ---------------------------------------------------------------- runs and trails

  ghost predicate StepAt(cx: Config, es: seq<Addr>, i: nat)
    requires ConfigOk(cx) && i + 1 < |es|
  {
    ProgramStep(cx, es[i], es[i + 1])
  }

  /** A run of the program from the first instruction of `f`. */
  ghost predicate Run(cx: Config, f: FuncName, es: seq<Addr>)
    requires ConfigOk(cx)
  {
    && |es| > 0 && f in cx.prog && FrameOk(cx, StartOf(cx, f))
    && es[0] == Enter(cx, [], StartOf(cx, f))
    && (forall i :: 0 <= i < |es| - 1 ==> StepAt(cx, es, i))
  }

  lemma RunInit(cx: Config, f: FuncName, es: seq<Addr>)
    requires ConfigOk(cx) && Run(cx, f, es) && |es| > 1
    ensures Run(cx, f, es[..|es| - 1]) && ProgramStep(cx, es[|es| - 2], es[|es| - 1])
  {
    hide ProgramStep, Enter, FrameOk;
    var init := es[..|es| - 1];
    forall i | 0 <= i < |init| - 1
      ensures StepAt(cx, init, i)
    {
      assert StepAt(cx, es, i);
    }
    assert StepAt(cx, es, |es| - 2);
  }

  lemma StepShape(cx: Config, a: Addr, b: Addr)
    requires ConfigOk(cx) && ProgramStep(cx, a, b)
    ensures |a| > 0 && AllFramesOk(cx, a) && 0 <= Pivot(cx, a) < |b|
    ensures var m := Pivot(cx, a); b[..m] == a[..m] && ProgramMove(cx, a[m], b[m])
    ensures forall i :: Pivot(cx, a) < i < |b| ==> AtStart(cx, b[i])
  {
    hide Enter, FrameOk, Position;
    var m := Pivot(cx, a);
    var fr' :| ProgramArrival(cx, a[..m], a[m], fr', b);
    EnterPosition(cx, a[..m], fr');
  }

  ghost function Starts(a: Addr): (ts: seq<seq<Block>>)
    ensures |ts| == |a| && forall i :: 0 <= i < |a| ==> ts[i] == [a[i].block]
  {
    seq(|a|, i requires 0 <= i < |a| => [a[i].block])
  }

  /** The trails after a step from `a` to `b`: the moving activation's grows if it changes
      block, and those that the step calls begin. */
  ghost function Onward(cx: Config, a: Addr, b: Addr, ts: seq<seq<Block>>): (us: seq<seq<Block>>)
    requires |ts| == |a| > 0 && AllFramesOk(cx, a) && 0 <= Pivot(cx, a) < |b|
    ensures |us| == |b|
  {
    var m := Pivot(cx, a);
    ts[..m] + [if AtEnd(cx, a[m]) then ts[m] + [b[m].block] else ts[m]] + Starts(b[m + 1..])
  }

  /** For each activation on the stack at the end of a run, the blocks it has gone through. */
  ghost function Trails(cx: Config, f: FuncName, es: seq<Addr>): (ts: seq<seq<Block>>)
    requires ConfigOk(cx) && Run(cx, f, es)
    ensures |ts| == |es[|es| - 1]|
    decreases |es|
  {
    if |es| == 1 then Starts(es[0])
    else
      RunInit(cx, f, es);
      StepShape(cx, es[|es| - 2], es[|es| - 1]);
      Onward(cx, es[|es| - 2], es[|es| - 1], Trails(cx, f, es[..|es| - 1]))
  }

  ghost predicate InBounds(cx: Config, a: Addr, ts: seq<seq<Block>>)
    requires |ts| == |a|
  {
    forall m :: 0 <= m < |a| && a[m].fn in cx.prog ==> BoundedStays(cx.k, cx.prog[a[m].fn].root, ts[m])
  }

  /** At no point of the run has an activation, in one stay in a loop, come back to the
      loop's header more often than the number of unrolls, or gone on after a call
      inlined at the end of its block. */
  ghost predicate Bounded(cx: Config, f: FuncName, es: seq<Addr>)
    requires ConfigOk(cx) && Run(cx, f, es)
    decreases |es|
  {
    && InBounds(cx, es[|es| - 1], Trails(cx, f, es))
    && (|es| > 1 ==> (RunInit(cx, f, es); Bounded(cx, f, es[..|es| - 1]) && !Stranded(cx, es[|es| - 2])))
  }

  /** `q` is a path from the graph's entry whose nodes stand for the positions `es`. */
  ghost predicate Lifts(addr: seq<Addr>, fwd: map<nat, set<nat>>, es: seq<Addr>, q: seq<nat>) {
    && |q| == |es| > 0
    && Edge(fwd, 0, q[0])
    && (forall i :: 0 <= i < |q| - 1 ==> Edge(fwd, q[i], q[i + 1]))
    && (forall i :: 0 <= i < |q| ==> 2 <= q[i] < |addr| && Erase(addr[q[i]]) == es[i])
  }

  // ---------------------------------------------------------------- counters are read off the trails

  /** The frame's block and counters are where its trail leads, and the trail is in bounds. */
  ghost predicate OnTrail(cx: Config, fr: Frame, t: seq<Block>) {
    && fr.fn in cx.prog && |t| > 0
    && var fn := cx.prog[fr.fn];
       && BlockPath(fn, fn.root, t) && t[0] == fn.root.header
       && t[|t| - 1] == fr.block
       && fr.iters == CountersAt(fn.root, t, |t| - 1)
       && AllAtMost(cx.k, fn.root, t)
  }

  ghost predicate OnTrails(cx: Config, a: Addr, ts: seq<seq<Block>>) {
    |ts| == |a| && forall i :: 0 <= i < |a| ==> OnTrail(cx, a[i], ts[i])
  }

  lemma StartOnTrail(cx: Config, fr: Frame)
    requires ConfigOk(cx) && AtStart(cx, fr)
    ensures OnTrail(cx, fr, [fr.block])
  {
    hide WellNested, Live;
    var rank := GoodRank(cx.prog[fr.fn]);
  }

  /** Counters along a path do not depend on how it goes on. */
  lemma {:induction false} CountersOfPrefix(l: Loop, t: seq<Block>, d: Block, n: nat)
    requires n < |t|
    ensures CountersAt(l, t + [d], n) == CountersAt(l, t, n)
    decreases n
  {
    if n > 0 {
      CountersOfPrefix(l, t, d, n - 1);
    }
  }

  lemma BoundsOfPrefix(k: nat, l: Loop, t: seq<Block>, d: Block)
    requires |t| > 0 && AllAtMost(k, l, t)
    ensures CountersAt(l, t + [d], |t|) == NextCounters(l, t[|t| - 1], CountersAt(l, t, |t| - 1), d)
    ensures AllAtMost(k, l, t + [d]) <==> AtMost(k, CountersAt(l, t + [d], |t|))
  {
    hide AtMost, NextCounters;
    CountersOfPrefix(l, t, d, |t| - 1);
    forall n | 0 <= n < |t|
      ensures CountersAt(l, t + [d], n) == CountersAt(l, t, n)
    {
      CountersOfPrefix(l, t, d, n);
    }
  }

  lemma SuccessorInRoot(fn: Function, b: Block, d: Block)
    requires Reducible(fn) && b in fn.succs && d in fn.succs[b]
    ensures d in fn.root.blocks
  {
    var rank :| WellFormed(fn, rank);
  }

  /** Changing block, an activation stays in bounds exactly when the transfer is not back
      to the header of a loop in its last iteration. */
  lemma NextOnTrail(cx: Config, fr: Frame, t: seq<Block>, d: Block)
    requires ConfigOk(cx) && FrameOk(cx, fr) && OnTrail(cx, fr, t) && d in cx.prog[fr.fn].succs[fr.block]
    ensures var fn := cx.prog[fr.fn];
            && BlockPath(fn, fn.root, t + [d])
            && CountersAt(fn.root, t + [d], |t|) == NextCounters(fn.root, fr.block, fr.iters, d)
            && (AllAtMost(cx.k, fn.root, t + [d]) <==> !LastIteration(cx.k, fn.root, fr.block, fr.iters, d))
  {
    hide AtMost, NextCounters, LastIteration, WellNested, CountersAt, Shaped, AllAtMost, BlockPath, Live;
    var fn := cx.prog[fr.fn];
    var rank := GoodRank(fn);
    assert PathIn(fn, rank, fn.root, t) && AtMost(cx.k, fr.iters) by {
      LastAtMost(fn, cx.k, t);
    }
    SuccessorInRoot(fn, fr.block, d);
    PathMore(fn, t, d);
    BoundsOfPrefix(cx.k, fn.root, t, d);
    AtShaped(fn, rank, fn.root, t, |t| - 1);
    RefusedBeyond(cx.k, fn.root, fr.block, fr.iters, d);
  }

  lemma LastAtMost(fn: Function, k: nat, t: seq<Block>)
    requires BlockPath(fn, fn.root, t) && AllAtMost(k, fn.root, t)
    ensures AtMost(k, CountersAt(fn.root, t, |t| - 1))
  {
    hide AtMost, CountersAt;
  }

  lemma PathMore(fn: Function, t: seq<Block>, d: Block)
    requires BlockPath(fn, fn.root, t) && t[|t| - 1] in fn.succs && d in fn.succs[t[|t| - 1]] && d in fn.root.blocks
    ensures BlockPath(fn, fn.root, t + [d])
  {
    forall i | 0 <= i < |t|
      ensures Transfer(fn, t + [d], i)
    {
      if i < |t| - 1 {
        assert Transfer(fn, t, i);
      }
    }
  }

  /** A step of the unrolled machine keeps the counters on the trails. */
  lemma StepOnTrails(cx: Config, f: FuncName, a: Addr, b: Addr, ts: seq<seq<Block>>)
    requires ConfigOk(cx) && f in cx.prog && InPart(cx, [], f, Body(cx.prog[f].root), [], a)
    requires OnTrails(cx, a, ts) && Step(cx, a, b)
    ensures ProgramStep(cx, Erase(a), Erase(b)) && 0 <= Pivot(cx, Erase(a)) < |b|
    ensures OnTrails(cx, b, Onward(cx, Erase(a), Erase(b), ts))
  {
    hide Enter, Live, InView, Inlined, OnTrail, ProgramStep, Position, MoveIn;
    Projection(cx, a, b);
    EraseFrames(cx, a);
    var m := Pivot(cx, a);
    var root := cx.prog[a[m].fn].root;
    var fr' :| ArrivesBy(cx, a[..m], Body(root), [], a[m], fr', b);
    MoveOk(cx, Body(root), [], a[m], fr');
    EnterPosition(cx, a[..m], fr');
    PivotInView(cx, f, a);
    MoveOnTrail(cx, a[m], fr', ts[m]);
    TrailsGrow(cx, a, b, m, ts);
  }

  lemma TrailsGrow(cx: Config, a: Addr, b: Addr, m: nat, ts: seq<seq<Block>>)
    requires ConfigOk(cx) && |a| > 0 && AllFramesOk(cx, a) && AllFramesOk(cx, Erase(a))
    requires m == Pivot(cx, a) == Pivot(cx, Erase(a)) < |b|
    requires OnTrails(cx, a, ts) && b[..m] == a[..m] && (forall i :: m < i < |b| ==> AtStart(cx, b[i]))
    requires OnTrail(cx, b[m], if AtEnd(cx, a[m]) then ts[m] + [b[m].block] else ts[m])
    ensures OnTrails(cx, b, Onward(cx, Erase(a), Erase(b), ts))
  {
    hide FrameOk, AtEnd, OnTrail, AtExit, Onward;
    OnwardAt(cx, a, b, m, ts);
    var us := Onward(cx, Erase(a), Erase(b), ts);
    forall i | 0 <= i < |b|
      ensures OnTrail(cx, b[i], us[i])
    {
      if i < m {
        assert b[..m][i] == a[..m][i];
      } else if i > m {
        StartOnTrail(cx, b[i]);
      }
    }
  }

  lemma OnwardAt(cx: Config, a: Addr, b: Addr, m: nat, ts: seq<seq<Block>>)
    requires |ts| == |a| > 0 && AllFramesOk(cx, a) && AllFramesOk(cx, Erase(a))
    requires m == Pivot(cx, a) == Pivot(cx, Erase(a)) < |b|
    ensures var us := Onward(cx, Erase(a), Erase(b), ts);
            && (forall i :: 0 <= i < m ==> us[i] == ts[i])
            && us[m] == (if AtEnd(cx, a[m]) then ts[m] + [b[m].block] else ts[m])
            && (forall i :: m < i < |b| ==> us[i] == [b[i].block])
  {
    hide FrameOk, AtEnd, AtExit;
    EndErased(cx, a[m]);
    var us, rest := Onward(cx, Erase(a), Erase(b), ts), Starts(Erase(b)[m + 1..]);
    forall i | m < i < |b|
      ensures us[i] == [b[i].block]
    {
      assert us[i] == rest[i - m - 1];
    }
  }

  lemma EndErased(cx: Config, fr: Frame)
    requires FrameOk(cx, fr)
    ensures FrameOk(cx, Bare(fr)) && (AtEnd(cx, Bare(fr)) <==> AtEnd(cx, fr))
  {
  }

  lemma MoveOnTrail(cx: Config, fr: Frame, fr': Frame, t: seq<Block>)
    requires ConfigOk(cx) && FrameOk(cx, fr) && InView(cx, Body(cx.prog[fr.fn].root), [], fr) && OnTrail(cx, fr, t)
    requires Move(cx, fr, fr')
    ensures OnTrail(cx, fr', if AtEnd(cx, fr) then t + [fr'.block] else t)
  {
    hide NextCounters, LastIteration, AllAtMost, CountersAt, BlockPath, InView, MoveIn;
    MoveProjects(cx, fr, fr');
    FrameLifts(cx, fr, Bare(fr'), fr');
    if AtEnd(cx, fr) {
      NextOnTrail(cx, fr, t, fr'.block);
    }
  }

  lemma TrailsInBounds(cx: Config, a: Addr, ts: seq<seq<Block>>)
    requires ConfigOk(cx) && OnTrails(cx, a, ts)
    ensures InBounds(cx, Erase(a), ts)
  {
    hide BoundedStays, AllAtMost, CountersAt, BlockPath;
    forall m | 0 <= m < |a|
      ensures BoundedStays(cx.k, cx.prog[a[m].fn].root, ts[m])
    {
      assert OnTrail(cx, a[m], ts[m]);
      StaysIffAtMost(cx.prog[a[m].fn], cx.k, ts[m]);
    }
  }

  lemma InBoundsNotRefused(cx: Config, a: Addr, e: Addr, ts: seq<seq<Block>>)
    requires ConfigOk(cx) && AllFramesOk(cx, a) && OnTrails(cx, a, ts) && ProgramStep(cx, Erase(a), e)
    requires 0 <= Pivot(cx, Erase(a)) < |e| && InBounds(cx, e, Onward(cx, Erase(a), e, ts)) && !Stranded(cx, Erase(a))
    ensures !Refused(cx, a, e)
  {
    hide Stranded, BoundedStays, AllAtMost, CountersAt, BlockPath, NextCounters, LastIteration, Live, ProgramStep;
    EraseFrames(cx, a);
    StrandedErased(cx, a);
    StepShape(cx, Erase(a), e);
    var m := Pivot(cx, a);
    if AtEnd(cx, a[m]) {
      var us := Onward(cx, Erase(a), e, ts);
      assert us[m] == ts[m] + [e[m].block];
      assert OnTrail(cx, a[m], ts[m]);
      NextOnTrail(cx, a[m], ts[m], e[m].block);
      StaysIffAtMost(cx.prog[a[m].fn], cx.k, us[m]);
    }
  }

  // ---------------------------------------------------------------- paths and runs

  lemma EntryNode(cx: Config, f: FuncName, addr: seq<Addr>, fwd: map<nat, set<nat>>)
    requires ConfigOk(cx) && UnrolledGraph(cx, f, addr, fwd)
    ensures var e := Enter(cx, [], StartOf(cx, f));
            Erase(e) == e && OnTrails(cx, e, Starts(e)) && exists s: nat :: Edge(fwd, 0, s)
  {
    hide FrameOk, Enter, OnTrail;
    var st := StartOf(cx, f);
    var e := Enter(cx, [], st);
    EnterPosition(cx, [], st);
    EnterErases(cx, [], st);
    assert Erase([]) == [] && Bare(st) == st;
    forall i | 0 <= i < |e|
      ensures OnTrail(cx, e[i], Starts(e)[i])
    {
      assert AtStart(cx, e[i]);
      StartOnTrail(cx, e[i]);
    }
    RootOk(cx, f);
    assert InPart(cx, [], f, Body(cx.prog[f].root), [], e);
    assert Has(addr, 2, |addr|, e);
  }

  /** A path from the graph's entry is a run within bounds, and its last node's counters
      are those of the trails. */
  lemma {:induction false} LiftIsRun(cx: Config, f: FuncName, addr: seq<Addr>, fwd: map<nat, set<nat>>, es: seq<Addr>,
                                     q: seq<nat>)
    requires ConfigOk(cx) && UnrolledGraph(cx, f, addr, fwd) && Lifts(addr, fwd, es, q)
    ensures Run(cx, f, es) && Bounded(cx, f, es) && OnTrails(cx, addr[q[|q| - 1]], Trails(cx, f, es))
    decreases |es|
  {
    hide FrameOk, Enter, OnTrails, InBounds, Step, ProgramStep, Onward, InPart, Trails, Bounded, Run, Stranded;
    var a := addr[q[|q| - 1]];
    if |es| == 1 {
      EntryNode(cx, f, addr, fwd);
      FirstPosition(cx, f, es);
    } else {
      var n := |es| - 1;
      LiftIsRun(cx, f, addr, fwd, es[..n], q[..n]);
      assert Edge(fwd, q[n - 1], q[n - 1 + 1]);
      var z := addr[q[n - 1]];
      assert InPart(cx, [], f, Body(cx.prog[f].root), [], z);
      StepOnTrails(cx, f, z, a, Trails(cx, f, es[..n]));
      NotStranded(cx, f, z, a);
      RunMore(cx, f, es);
    }
    TrailsInBounds(cx, a, Trails(cx, f, es));
    BoundedStep(cx, f, es);
  }

  lemma NotStranded(cx: Config, f: FuncName, a: Addr, b: Addr)
    requires ConfigOk(cx) && f in cx.prog && InPart(cx, [], f, Body(cx.prog[f].root), [], a) && Step(cx, a, b)
    ensures !Stranded(cx, Erase(a))
  {
    hide ConfigOk, Enter, InView, MoveIn, Live, Inlined;
    StrandedErased(cx, a);
  }

  lemma FirstPosition(cx: Config, f: FuncName, es: seq<Addr>)
    requires ConfigOk(cx) && f in cx.prog && FrameOk(cx, StartOf(cx, f)) && es == [Enter(cx, [], StartOf(cx, f))]
    ensures Run(cx, f, es) && Trails(cx, f, es) == Starts(es[0])
  {
    hide FrameOk, Enter, ProgramStep;
  }

  lemma BoundedStep(cx: Config, f: FuncName, es: seq<Addr>)
    requires ConfigOk(cx) && Run(cx, f, es) && InBounds(cx, es[|es| - 1], Trails(cx, f, es))
    requires |es| > 1 ==> Run(cx, f, es[..|es| - 1]) && Bounded(cx, f, es[..|es| - 1]) && !Stranded(cx, es[|es| - 2])
    ensures Bounded(cx, f, es)
  {
    hide Run, InBounds, Trails, Stranded;
  }

  lemma RunMore(cx: Config, f: FuncName, es: seq<Addr>)
    requires ConfigOk(cx) && |es| > 1 && Run(cx, f, es[..|es| - 1]) && ProgramStep(cx, es[|es| - 2], es[|es| - 1])
    ensures Run(cx, f, es)
    ensures |es[|es| - 2]| > 0 && AllFramesOk(cx, es[|es| - 2]) && 0 <= Pivot(cx, es[|es| - 2]) < |es[|es| - 1]|
    ensures Trails(cx, f, es) == Onward(cx, es[|es| - 2], es[|es| - 1], Trails(cx, f, es[..|es| - 1]))
  {
    hide ProgramStep, Enter, FrameOk;
    StepShape(cx, es[|es| - 2], es[|es| - 1]);
    forall i | 0 <= i < |es| - 1
      ensures StepAt(cx, es, i)
    {
      if i < |es| - 2 {
        assert StepAt(cx, es[..|es| - 1], i);
      }
    }
  }

  lemma PartFrames(cx: Config, f: FuncName, a: Addr)
    requires f in cx.prog && InPart(cx, [], f, Body(cx.prog[f].root), [], a)
    ensures AllFramesOk(cx, a)
  {
  }

  /** A step in bounds from the position of a node on the trails has an edge. */
  lemma StepLifts(cx: Config, f: FuncName, addr: seq<Addr>, fwd: map<nat, set<nat>>, r: nat, e: Addr,
                  ts: seq<seq<Block>>)
    returns (s: nat)
    requires ConfigOk(cx) && UnrolledGraph(cx, f, addr, fwd) && 2 <= r < |addr| && OnTrails(cx, addr[r], ts)
    requires ProgramStep(cx, Erase(addr[r]), e) && 0 <= Pivot(cx, Erase(addr[r])) < |e|
    requires InBounds(cx, e, Onward(cx, Erase(addr[r]), e, ts)) && !Stranded(cx, Erase(addr[r]))
    ensures 2 <= s < |addr| && Edge(fwd, r, s) && Erase(addr[s]) == e
  {
    hide FrameOk, Enter, OnTrails, InBounds, Step, ProgramStep, Onward, InPart, Refused, Stranded;
    assert InPart(cx, [], f, Body(cx.prog[f].root), [], addr[r]);
    PartFrames(cx, f, addr[r]);
    InBoundsNotRefused(cx, addr[r], e, ts);
    GraphLifts(cx, f, addr, fwd, r, e);
    s :| 2 <= s < |addr| && Edge(fwd, r, s) && Erase(addr[s]) == e;
  }

  lemma LiftMore(addr: seq<Addr>, fwd: map<nat, set<nat>>, es: seq<Addr>, q: seq<nat>, s: nat)
    requires |es| > 1 && Lifts(addr, fwd, es[..|es| - 1], q)
    requires 2 <= s < |addr| && Edge(fwd, q[|q| - 1], s) && Erase(addr[s]) == es[|es| - 1]
    ensures Lifts(addr, fwd, es, q + [s])
  {
    var p := q + [s];
    forall i | 0 <= i < |p| - 1
      ensures Edge(fwd, p[i], p[i + 1])
    {
      if i < |q| - 1 {
        assert Edge(fwd, q[i], q[i + 1]);
      }
    }
  }

  lemma {:induction false} BoundedLifts(cx: Config, f: FuncName, addr: seq<Addr>, fwd: map<nat, set<nat>>,
                                        es: seq<Addr>)
    returns (q: seq<nat>)
    requires ConfigOk(cx) && UnrolledGraph(cx, f, addr, fwd) && Run(cx, f, es) && Bounded(cx, f, es)
    ensures Lifts(addr, fwd, es, q)
    decreases |es|
  {
    hide UnrolledGraph, FrameOk, Enter, OnTrails, InBounds, ProgramStep, Onward, Lifts, Stranded;
    if |es| == 1 {
      q := EntryLifts(cx, f, addr, fwd, es);
    } else {
      var n := |es| - 1;
      RunInit(cx, f, es);
      var q' := BoundedLifts(cx, f, addr, fwd, es[..n]);
      LiftIsRun(cx, f, addr, fwd, es[..n], q');
      LiftParts(addr, fwd, es[..n], q');
      StepShape(cx, es[n - 1], es[n]);
      var s := StepLifts(cx, f, addr, fwd, q'[n - 1], es[n], Trails(cx, f, es[..n]));
      LiftMore(addr, fwd, es, q', s);
      q := q' + [s];
    }
  }

  lemma EntryLifts(cx: Config, f: FuncName, addr: seq<Addr>, fwd: map<nat, set<nat>>, es: seq<Addr>)
    returns (q: seq<nat>)
    requires ConfigOk(cx) && UnrolledGraph(cx, f, addr, fwd) && Run(cx, f, es) && |es| == 1
    ensures Lifts(addr, fwd, es, q)
  {
    hide FrameOk, Enter, OnTrails, Step, InPart;
    EntryNode(cx, f, addr, fwd);
    var s: nat :| Edge(fwd, 0, s);
    q := [s];
  }

  /** A run of the program is a path of the unrolled graph exactly when it is within bounds. */
  lemma RunsLift(cx: Config, f: FuncName, addr: seq<Addr>, fwd: map<nat, set<nat>>, es: seq<Addr>)
    requires ConfigOk(cx) && UnrolledGraph(cx, f, addr, fwd) && Run(cx, f, es)
    ensures (exists q :: Lifts(addr, fwd, es, q)) <==> Bounded(cx, f, es)
  {
    hide UnrolledGraph, Lifts, Bounded, Run;
    if q :| Lifts(addr, fwd, es, q) {
      LiftIsRun(cx, f, addr, fwd, es, q);
    }
    if Bounded(cx, f, es) {
      var q := BoundedLifts(cx, f, addr, fwd, es);
    }
  }

  /** Positions on the same trails carry the same counters. */
  lemma SameTrails(cx: Config, a: Addr, b: Addr, ts: seq<seq<Block>>)
    requires OnTrails(cx, a, ts) && OnTrails(cx, b, ts) && Erase(a) == Erase(b)
    ensures a == b
  {
    hide CountersAt, BlockPath, AllAtMost;
    forall i | 0 <= i < |a|
      ensures a[i] == b[i]
    {
      assert OnTrail(cx, a[i], ts[i]) && OnTrail(cx, b[i], ts[i]);
      assert Erase(a)[i] == Bare(a[i]) && Erase(b)[i] == Bare(b[i]);
    }
  }

  /** No two paths from the graph's entry stand for the same run. */
  lemma {:induction false} LiftUnique(cx: Config, f: FuncName, addr: seq<Addr>, fwd: map<nat, set<nat>>, es: seq<Addr>,
                                      q: seq<nat>, q': seq<nat>)
    requires ConfigOk(cx) && UnrolledGraph(cx, f, addr, fwd) && Lifts(addr, fwd, es, q) && Lifts(addr, fwd, es, q')
    ensures q == q'
    decreases |es|
  {
    hide OnTrails, Run, Bounded, Trails, UnrolledGraph, Lifts;
    LiftIsRun(cx, f, addr, fwd, es, q);
    LiftIsRun(cx, f, addr, fwd, es, q');
    LiftParts(addr, fwd, es, q);
    LiftParts(addr, fwd, es, q');
    var n := |es| - 1;
    SameTrails(cx, addr[q[n]], addr[q'[n]], Trails(cx, f, es));
    NodesDiffer(cx, f, addr, fwd, q[n], q'[n]);
    if n > 0 {
      LiftUnique(cx, f, addr, fwd, es[..n], q[..n], q'[..n]);
    }
    assert q == q[..n] + [q[n]] && q' == q'[..n] + [q'[n]];
  }

  lemma LiftParts(addr: seq<Addr>, fwd: map<nat, set<nat>>, es: seq<Addr>, q: seq<nat>)
    requires Lifts(addr, fwd, es, q)
    ensures var n := |es| - 1;
            && n >= 0 && |q| == n + 1 && 2 <= q[n] < |addr| && Erase(addr[q[n]]) == es[n]
            && (n > 0 ==> Lifts(addr, fwd, es[..n], q[..n]))
  {
    var n := |es| - 1;
    if n > 0 {
      var p := q[..n];
      forall i | 0 <= i < n - 1
        ensures Edge(fwd, p[i], p[i + 1])
      {
        assert Edge(fwd, q[i], q[i + 1]);
      }
    }
  }

  lemma NodesDiffer(cx: Config, f: FuncName, addr: seq<Addr>, fwd: map<nat, set<nat>>, r: nat, s: nat)
    requires ConfigOk(cx) && UnrolledGraph(cx, f, addr, fwd) && 2 <= r < |addr| && 2 <= s < |addr| && addr[r] == addr[s]
    ensures r == s
  {
    hide Step, Enter, InPart;
  }
}
