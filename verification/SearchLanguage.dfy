/** The search's target language, (ADDR | DATA;RF)* dep_1 (ADDR | DATA;RF)* ... dep_n,
    read backwards from the transmitter, and the proof that the search reports
    exactly its satisfiable members. */
module SearchLanguage {
  import Digraph
  import opened SearchSpec
  import opened SearchTheorems

  function Node(from: NodeRef, ss: seq<Step>, j: nat): NodeRef
    requires j <= |ss|
  {
    if j == 0 then from else ss[j - 1].e.src
  }

  /** Step `j` follows edges of the graph inside the window; a traceback step does not start at the transmitter. */
  ghost predicate StepAt(cx: Search, t: NodeRef, from: NodeRef, ss: seq<Step>, j: nat)
    requires j < |ss|
  {
    var at := Node(from, ss, j);
    match ss[j]
    case Dependency(kind, e) => e in cx.preds(at, kind) && e.src in cx.window && at in cx.window
    case Address(e) => at != t && e in cx.preds(at, ADDR) && e.src in cx.window && at in cx.window
    case StoreData(store, e) =>
      at != t && store in cx.stores(at) && store in cx.window && e in cx.preds(store, DATA) && e.src in cx.window
  }

  function Stars(ss: seq<Step>): nat {
    if ss == [] then 0 else (if ss[0].Dependency? then 0 else 1) + Stars(ss[1..])
  }

  /** The kinds of the dependency steps, in order. */
  function Kinds(ss: seq<Step>): seq<Kind> {
    if ss == [] then [] else (if ss[0].Dependency? then [ss[0].kind] else []) + Kinds(ss[1..])
  }

  /** `ks` are the wanted dependencies from number `it` on. */
  ghost predicate Wanted(cx: Search, it: nat, ks: seq<Kind>) {
    it + |ks| <= |cx.deps| && forall i :: 0 <= i < |ks| ==> ks[i] == DepAt(cx, it + i).kind
  }

  ghost predicate AllSteps(cx: Search, t: NodeRef, from: NodeRef, ss: seq<Step>) {
    forall j :: 0 <= j < |ss| ==> StepAt(cx, t, from, ss, j)
  }

  /** `ss` is a chain of the language, traced back from the transmitter `t`. */
  ghost predicate Chain(cx: Search, t: NodeRef, ss: seq<Step>) {
    && AllSteps(cx, t, t, ss)
    && Stars(ss) <= cx.maxTraceback
    && Kinds(ss) == Digraph.Reversed(KindsOf(cx.deps))
  }

  function KindsOf(deps: seq<Dep>): (ks: seq<Kind>)
    ensures |ks| == |deps| && forall i :: 0 <= i < |deps| ==> ks[i] == deps[i].kind
  {
    seq(|deps|, i requires 0 <= i < |deps| => deps[i].kind)
  }

  // ---------------------------------------------------------------- what a chain amounts to

  function Sources(ss: seq<Step>): seq<NodeRef> {
    if ss == [] then [] else [ss[0].e.src] + Sources(ss[1..])
  }

  function StepActions(from: NodeRef, s: Step): seq<Action> {
    match s
    case Dependency(kind, e) => [Action(e.src, kind, from)]
    case Address(e) => [Action(e.src, ADDR, from)]
    case StoreData(store, e) => [Action(store, RF, from), Action(e.src, DATA, store)]
  }

  function Actions(from: NodeRef, ss: seq<Step>): seq<Action>
    decreases |ss|
  {
    if ss == [] then [] else StepActions(from, ss[0]) + Actions(ss[0].e.src, ss[1..])
  }

  /** An edge exists, is taken, and everything between its ends is executed. */
  function EdgeHolds(cx: Search, kind: Kind, e: InEdge, dst: NodeRef): set<Constraint> {
    {Exists(kind, e.src, dst, e.cond), TransAlong(e.src, dst), ArchAlong(e.src, dst)} +
    set r | r in cx.within(e.src, dst) :: Executed(r, EXEC)
  }

  /** What a step asks of the solver after `it` dependency steps. The list of dependencies is read from its
      end: the source of dependency step number `it` is executed in the mode listed there. */
  function StepConstraints(cx: Search, it: nat, from: NodeRef, s: Step): set<Constraint> {
    match s
    case Dependency(kind, e) =>
      EdgeHolds(cx, kind, e, from) +
      if it < |cx.deps| then {Executed(e.src, cx.deps[|cx.deps| - 1 - it].mode)} else {}
    case Address(e) => {Reads(from)} + EdgeHolds(cx, ADDR, e, from)
    case StoreData(store, e) =>
      {Reads(from), ReadsFrom(store, from), Executed(store, EXEC)} + EdgeHolds(cx, DATA, e, store)
  }

  function Constraints(cx: Search, it: nat, from: NodeRef, ss: seq<Step>): set<Constraint>
    decreases |ss|
  {
    if ss == [] then {}
    else
      StepConstraints(cx, it, from, ss[0]) +
      Constraints(cx, if ss[0].Dependency? then it + 1 else it, ss[0].e.src, ss[1..])
  }

  lemma {:induction false} WalkIsChain(cx: Search, c: Point, ss: seq<Step>)
    requires PointOk(cx, c)
    ensures WalkOk(cx, c, ss) <==>
            AllSteps(cx, c.vec[0], At(c), ss) && c.depth + Stars(ss) <= cx.maxTraceback && Wanted(cx, c.it, Kinds(ss))
    decreases |ss|
  {
    hide AllSteps, Wanted, Kinds, Take, StepAt, Enabled;
    if ss == [] {
      EmptyChain(cx, c);
    } else {
      ChainFirst(cx, c, ss);
      FirstEnabled(cx, c, ss);
      if Enabled(cx, c, ss[0]) {
        TakeGives(cx, c, ss[0]);
        WalkIsChain(cx, Take(cx, c, ss[0]), ss[1..]);
      }
    }
  }

  lemma EmptyChain(cx: Search, c: Point)
    requires PointOk(cx, c)
    ensures AllSteps(cx, c.vec[0], At(c), []) && Wanted(cx, c.it, Kinds([]))
  {
  }

  lemma FirstEnabled(cx: Search, c: Point, ss: seq<Step>)
    requires PointOk(cx, c) && ss != []
    ensures Enabled(cx, c, ss[0]) <==>
            && StepAt(cx, c.vec[0], At(c), ss, 0)
            && if ss[0].Dependency? then c.it < |cx.deps| && ss[0].kind == DepAt(cx, c.it).kind
               else c.depth < cx.maxTraceback
    ensures Enabled(cx, c, ss[0]) ==> Take(cx, c, ss[0]).depth == (if ss[0].Dependency? then c.depth else c.depth + 1)
  {
  }

  lemma KindsFirst(ss: seq<Step>)
    requires ss != []
    ensures Kinds(ss) == if ss[0].Dependency? then [ss[0].kind] + Kinds(ss[1..]) else Kinds(ss[1..])
  {
  }

  /** Splits off a chain's first step. */
  lemma ChainFirst(cx: Search, c: Point, ss: seq<Step>)
    requires PointOk(cx, c) && ss != []
    ensures AllSteps(cx, c.vec[0], At(c), ss) <==>
            StepAt(cx, c.vec[0], At(c), ss, 0) && AllSteps(cx, c.vec[0], ss[0].e.src, ss[1..])
    ensures Wanted(cx, c.it, Kinds(ss)) <==>
            if ss[0].Dependency? then c.it < |cx.deps| && ss[0].kind == DepAt(cx, c.it).kind &&
              Wanted(cx, c.it + 1, Kinds(ss[1..]))
            else Wanted(cx, c.it, Kinds(ss[1..]))
  {
    hide AllSteps, Wanted, StepAt, Kinds;
    StepsFirst(cx, c.vec[0], At(c), ss);
    KindsFirst(ss);
    if ss[0].Dependency? {
      WantedFirst(cx, c.it, ss[0].kind, Kinds(ss[1..]));
    }
  }

  lemma WantedFirst(cx: Search, it: nat, k: Kind, rest: seq<Kind>)
    ensures Wanted(cx, it, [k] + rest) <==> it < |cx.deps| && k == DepAt(cx, it).kind && Wanted(cx, it + 1, rest)
  {
    var ks := [k] + rest;
    if Wanted(cx, it, ks) {
      assert ks[0] == DepAt(cx, it + 0).kind;
      forall i | 0 <= i < |rest|
        ensures rest[i] == DepAt(cx, it + 1 + i).kind
      {
        assert rest[i] == ks[i + 1] && it + (i + 1) == it + 1 + i;
      }
    }
    if it < |cx.deps| && k == DepAt(cx, it).kind && Wanted(cx, it + 1, rest) {
      forall i | 0 <= i < |ks|
        ensures ks[i] == DepAt(cx, it + i).kind
      {
        if i > 0 {
          assert ks[i] == rest[i - 1] && it + 1 + (i - 1) == it + i;
        }
      }
    }
  }

  lemma StepsFirst(cx: Search, t: NodeRef, from: NodeRef, ss: seq<Step>)
    requires ss != []
    ensures AllSteps(cx, t, from, ss) <==> StepAt(cx, t, from, ss, 0) && AllSteps(cx, t, ss[0].e.src, ss[1..])
  {
    var rest := ss[1..];
    assert forall j :: 0 <= j < |rest| ==> Node(from, ss, j + 1) == Node(ss[0].e.src, rest, j) && ss[j + 1] == rest[j];
    forall j | 0 <= j < |rest|
      ensures StepAt(cx, t, ss[0].e.src, rest, j) <==> StepAt(cx, t, from, ss, j + 1)
    {
    }
    if StepAt(cx, t, from, ss, 0) && AllSteps(cx, t, ss[0].e.src, rest) {
      forall j | 0 <= j < |ss|
        ensures StepAt(cx, t, from, ss, j)
      {
        if j > 0 {
          assert StepAt(cx, t, ss[0].e.src, rest, j - 1);
        }
      }
    }
  }

  lemma {:induction false} WalkVisits(cx: Search, c: Point, ss: seq<Step>)
    requires PointOk(cx, c) && WalkOk(cx, c, ss)
    ensures var p := Walk(cx, c, ss);
            && p.it == c.it + |Kinds(ss)|
            && p.vec == c.vec + Sources(ss)
            && p.actions == c.actions + Actions(At(c), ss)
    decreases |ss|
  {
    hide Take, StepActions, Enabled;
    if ss == [] {
      assert c.vec + [] == c.vec && c.actions + [] == c.actions;
    } else {
      var d, rest := Take(cx, c, ss[0]), ss[1..];
      WalkVisits(cx, d, rest);
      TakeGives(cx, c, ss[0]);
      assert c.vec + ([ss[0].e.src] + Sources(rest)) == c.vec + [ss[0].e.src] + Sources(rest);
      assert c.actions + (StepActions(At(c), ss[0]) + Actions(At(d), rest)) ==
             c.actions + StepActions(At(c), ss[0]) + Actions(At(d), rest);
    }
  }

  lemma {:induction false} WalkAsks(cx: Search, c: Point, ss: seq<Step>)
    requires PointOk(cx, c) && WalkOk(cx, c, ss)
    ensures Walk(cx, c, ss).cons == c.cons + Constraints(cx, c.it, At(c), ss)
    decreases |ss|
  {
    hide Take, StepConstraints, Enabled;
    if ss != [] {
      WalkAsks(cx, Take(cx, c, ss[0]), ss[1..]);
      TakeGives(cx, c, ss[0]);
    }
  }

  lemma TakeGives(cx: Search, c: Point, s: Step)
    requires PointOk(cx, c) && Enabled(cx, c, s)
    ensures var d := Take(cx, c, s);
            && d.it == (if s.Dependency? then c.it + 1 else c.it)
            && d.vec == c.vec + [s.e.src]
            && d.actions == c.actions + StepActions(At(c), s)
            && d.cons == c.cons + StepConstraints(cx, c.it, At(c), s)
  {
  }

  // ---------------------------------------------------------------- main results

  function Start(t: NodeRef, base: set<Constraint>): Point {
    Point(0, [t], [], 0, base)
  }

  function ChainLeak(t: NodeRef, ss: seq<Step>): Leak {
    Leak(Digraph.Reversed([t] + Sources(ss)), t, Actions(t, ss))
  }

  /** `ss` is a chain whose innermost node the taint analysis accepts and whose constraints the
      solver does not refute. */
  ghost predicate Leaks(cx: Search, t: NodeRef, base: set<Constraint>, ss: seq<Step>) {
    && Chain(cx, t, ss)
    && cx.leaf.SpectreV1?
    && (cx.leaf.analysis ==> cx.leaf.tainted(Node(t, ss, |ss|)))
    && !cx.unsat(base + Constraints(cx, 0, t, ss) + if cx.leaf.analysis then {BranchTainted} else {})
  }

  lemma ReportsIffLeaks(cx: Search, t: NodeRef, base: set<Constraint>, ss: seq<Step>, leak: Leak)
    requires cx.leaf.SpectreV1? && PointOk(cx, Start(t, base))
    ensures Reports(cx, Start(t, base), ss, leak) <==> Leaks(cx, t, base, ss) && leak == ChainLeak(t, ss)
  {
    hide WalkOk, Walk, Constraints, AllSteps;
    var c := Start(t, base);
    WalkIsChain(cx, c, ss);
    WantedAll(cx, Kinds(ss));
    if WalkOk(cx, c, ss) {
      WalkVisits(cx, c, ss);
      WalkAsks(cx, c, ss);
      LastSource(t, ss);
      assert [] + Actions(t, ss) == Actions(t, ss);
    }
  }

  lemma WantedAll(cx: Search, ks: seq<Kind>)
    ensures ks == Digraph.Reversed(KindsOf(cx.deps)) <==> Wanted(cx, 0, ks) && |ks| == |cx.deps|
  {
    var rs := Digraph.Reversed(KindsOf(cx.deps));
    forall i | 0 <= i < |cx.deps|
      ensures rs[i] == DepAt(cx, 0 + i).kind
    {
    }
    if Wanted(cx, 0, ks) && |ks| == |cx.deps| {
      assert forall i :: 0 <= i < |ks| ==> ks[i] == rs[i];
    }
  }

  lemma {:induction false} LastSource(from: NodeRef, ss: seq<Step>)
    ensures |Sources(ss)| == |ss|
    ensures ([from] + Sources(ss))[|ss|] == Node(from, ss, |ss|)
    decreases |ss|
  {
    if ss != [] {
      LastSource(ss[0].e.src, ss[1..]);
    }
  }

  /** Whatever the solver answers, only chains of the language are reported. */
  lemma OnlyChainsReported(cx: Search, t: NodeRef, base: set<Constraint>, leak: Leak)
    requires cx.leaf.SpectreV1? && PointOk(cx, Start(t, base)) && leak in Visit(cx, SLOW, Start(t, base))
    ensures exists ss :: Leaks(cx, t, base, ss) && leak == ChainLeak(t, ss)
  {
    hide Visit, Leaks, ChainLeak, Reports;
    var ss := OnlyWalks(cx, Start(t, base), Start(t, base), leak);
    ReportsIffLeaks(cx, t, base, ss, leak);
  }

  /** With a monotone solver the leaks reported are exactly the accepted and
      unrefuted chains, whatever the answers under a time limit were. */
  lemma ReportedIffChain(cx: Search, t: NodeRef, base: set<Constraint>, leak: Leak)
    requires cx.leaf.SpectreV1? && PointOk(cx, Start(t, base)) && Monotone(cx)
    ensures leak in Visit(cx, SLOW, Start(t, base)) <==> exists ss :: Leaks(cx, t, base, ss) && leak == ChainLeak(t, ss)
  {
    hide Visit, Leaks, ChainLeak, Reports;
    if leak in Visit(cx, SLOW, Start(t, base)) {
      OnlyChainsReported(cx, t, base, leak);
    }
    if ss :| Leaks(cx, t, base, ss) && leak == ChainLeak(t, ss) {
      ReportsIffLeaks(cx, t, base, ss, leak);
      AllWalks(cx, Start(t, base), Start(t, base), ss, leak);
    }
  }

  /** Without unsat answers every accepted chain of the language is reported, and nothing else. */
  lemma EveryChainReported(cx: Search, t: NodeRef, base: set<Constraint>, leak: Leak)
    requires cx.leaf.SpectreV1? && PointOk(cx, Start(t, base))
    requires (forall C :: !cx.unsat(C)) && (forall C :: !cx.refuted(C))
    ensures leak in Visit(cx, SLOW, Start(t, base)) <==>
            exists ss ::
              Chain(cx, t, ss) && (cx.leaf.analysis ==> cx.leaf.tainted(Node(t, ss, |ss|))) && leak == ChainLeak(t, ss)
  {
    hide Visit, Chain, ChainLeak, Constraints, Start, Node;
    ReportedIffChain(cx, t, base, leak);
    if ss :| Chain(cx, t, ss) && (cx.leaf.analysis ==> cx.leaf.tainted(Node(t, ss, |ss|))) && leak == ChainLeak(t, ss) {
      assert Leaks(cx, t, base, ss);
    }
  }

  /** Read backwards, the actions are one path from `last` to `first`. */
  ghost predicate Connected(actions: seq<Action>, first: NodeRef, last: NodeRef) {
    if actions == [] then first == last
    else
      && actions[0].dst == first
      && actions[|actions| - 1].src == last
      && forall i :: 0 <= i < |actions| - 1 ==> actions[i + 1].dst == actions[i].src
  }

  lemma ConnectedJoin(a: seq<Action>, b: seq<Action>, x: NodeRef, y: NodeRef, z: NodeRef)
    requires Connected(a, x, y) && Connected(b, y, z)
    ensures Connected(a + b, x, z)
  {
    var ab := a + b;
    if a == [] {
      assert ab == b;
    } else if b == [] {
      assert ab == a;
    } else {
      forall i | 0 <= i < |ab| - 1
        ensures ab[i + 1].dst == ab[i].src
      {
        if i + 1 == |a| {
          assert ab[i + 1] == b[0] && ab[i] == a[|a| - 1];
        } else if i >= |a| {
          assert ab[i + 1] == b[i - |a| + 1];
        }
      }
    }
  }

  lemma {:induction false} ChainConnected(from: NodeRef, ss: seq<Step>)
    ensures Connected(Actions(from, ss), from, Node(from, ss, |ss|))
    decreases |ss|
  {
    if ss != [] {
      var s := ss[0];
      ChainConnected(s.e.src, ss[1..]);
      ConnectedJoin(StepActions(from, s), Actions(s.e.src, ss[1..]), from, s.e.src, Node(from, ss, |ss|));
    }
  }

  /** Every reported leak's actions, reversed, are one path from its innermost node to its transmitter. */
  lemma ReportedConnected(cx: Search, t: NodeRef, base: set<Constraint>, leak: Leak)
    requires cx.leaf.SpectreV1? && PointOk(cx, Start(t, base)) && leak in Visit(cx, SLOW, Start(t, base))
    ensures leak.transmitter == t && |leak.vec| > 0 && leak.vec[|leak.vec| - 1] == t
    ensures Connected(leak.actions, t, leak.vec[0])
  {
    hide Visit, Leaks;
    OnlyChainsReported(cx, t, base, leak);
    var ss :| Leaks(cx, t, base, ss) && leak == ChainLeak(t, ss);
    ChainConnected(t, ss);
    LastSource(t, ss);
  }
}
