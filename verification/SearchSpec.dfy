/** The backward dependency search, as a plain function without lookahead: which
    leaks a detector reports from a transmitter, and in which order. */
module SearchSpec {
  import Digraph

  type NodeRef = nat

  datatype Kind = ADDR | ADDR_GEP | DATA | CTRL | RF

  /** SLOW consults the solver; FAST, which lookahead uses, does not. */
  datatype CheckMode = FAST | SLOW

  datatype ExecMode = ARCH | TRANS | EXEC

  /** An edge into some node: its source and the condition under which it exists. */
  datatype InEdge = InEdge(src: NodeRef, cond: nat)

  datatype Dep = Dep(kind: Kind, mode: ExecMode)

  datatype Action = Action(src: NodeRef, kind: Kind, dst: NodeRef)

  /** What the detector may assert to the solver. */
  datatype Constraint =
    | Exists(kind: Kind, src: NodeRef, dst: NodeRef, cond: nat)
    | TransAlong(src: NodeRef, dst: NodeRef)
    | ArchAlong(src: NodeRef, dst: NodeRef)
    | Executed(ref: NodeRef, mode: ExecMode)
    | Reads(ref: NodeRef)
    | ReadsFrom(store: NodeRef, load: NodeRef)
    | BranchTainted
    | Window(id: nat)

  /** A reported leak: the committed nodes from the innermost to the transmitter,
      the transmitter, and the actions that led there. */
  datatype Leak = Leak(vec: seq<NodeRef>, transmitter: NodeRef, actions: seq<Action>)

  /** What a detector does once all dependencies are found: the Spectre v1 check with its attacker-taint
      analysis, or any other check, given by whether lookahead may count on it at a point, what it reports
      there, and which constraints it leaves asserted. */
  datatype LeafCheck =
    | SpectreV1(analysis: bool, tainted: NodeRef -> bool)
    | OtherLeaf(fast: Point -> bool, report: Point -> seq<Leak>, left: Point -> seq<Constraint>)

  /** What a search works on: the event graph's in-edges, the possible sources of
      each load, the execution window, the nodes passed between two nodes of one
      basic block, the dependencies to find, the bound on traceback steps, the
      leaf check, and the solver. `refuted` is the answer unsat of the
      check with a time limit, `unsat` that of the check without. */
  datatype Search = Search(
    preds: (NodeRef, Kind) -> seq<InEdge>,
    stores: NodeRef -> seq<NodeRef>,
    window: set<NodeRef>,
    within: (NodeRef, NodeRef) -> seq<NodeRef>,
    deps: seq<Dep>,
    maxTraceback: nat,
    leaf: LeafCheck,
    refuted: set<Constraint> -> bool,
    unsat: set<Constraint> -> bool)

  /** A point of the search: `it` dependencies are found, `vec` holds the nodes
      visited down to the current one, `depth` traceback steps are taken. */
  datatype Point = Point(it: nat, vec: seq<NodeRef>, actions: seq<Action>, depth: nat, cons: set<Constraint>)

  ghost predicate PointOk(cx: Search, c: Point) {
    c.it <= |cx.deps| && |c.vec| > 0 && c.depth <= cx.maxTraceback
  }

  ghost function Budget(cx: Search, c: Point): nat
    requires PointOk(cx, c)
  {
    |cx.deps| - c.it + cx.maxTraceback - c.depth
  }

  function At(c: Point): NodeRef
    requires |c.vec| > 0
  {
    c.vec[|c.vec| - 1]
  }

  /** Dependencies are looked for from the last to the first. */
  function DepAt(cx: Search, it: nat): Dep
    requires it < |cx.deps|
  {
    cx.deps[|cx.deps| - 1 - it]
  }

  function EdgeConstraints(cx: Search, kind: Kind, e: InEdge, dst: NodeRef): (s: set<Constraint>) {
    {Exists(kind, e.src, dst, e.cond), TransAlong(e.src, dst), ArchAlong(e.src, dst)} +
    set r | r in cx.within(e.src, dst) :: Executed(r, EXEC)
  }

  predicate InWindow(cx: Search, src: NodeRef, dst: NodeRef) {
    src in cx.window && dst in cx.window
  }

  // ---------------------------------------------------------------- where the search goes next

  /** The search in fast mode asserts nothing. */
  function Asserting(mode: CheckMode, cons: set<Constraint>, more: set<Constraint>): set<Constraint> {
    if mode == SLOW then cons + more else cons
  }

  function Commit(cx: Search, mode: CheckMode, c: Point, e: InEdge): Point
    requires |c.vec| > 0 && c.it < |cx.deps|
  {
    var d := DepAt(cx, c.it);
    Point(c.it + 1, c.vec + [e.src], c.actions + [Action(e.src, d.kind, At(c))], c.depth,
          Asserting(mode, c.cons, EdgeConstraints(cx, d.kind, e, At(c)) + {Executed(e.src, d.mode)}))
  }

  /** The points after committing one of the first `n` dependency edges. */
  ghost function Commits(cx: Search, mode: CheckMode, c: Point, n: nat): (ps: seq<Point>)
    requires PointOk(cx, c) && c.it < |cx.deps| && n <= |cx.preds(At(c), DepAt(cx, c.it).kind)|
    ensures forall p :: p in ps ==> PointOk(cx, p) && Budget(cx, p) < Budget(cx, c)
  {
    if n == 0 then []
    else
      var e := cx.preds(At(c), DepAt(cx, c.it).kind)[n - 1];
      Commits(cx, mode, c, n - 1) + (if InWindow(cx, e.src, At(c)) then [Commit(cx, mode, c, e)] else [])
  }

  function Follow(cx: Search, mode: CheckMode, c: Point, kind: Kind, node: NodeRef, e: InEdge): Point {
    Point(c.it, c.vec + [e.src], c.actions + [Action(e.src, kind, node)], c.depth,
          Asserting(mode, c.cons, EdgeConstraints(cx, kind, e, node)))
  }

  /** The points after following one of the first `n` edges of a kind into `node`. */
  ghost function Follows(cx: Search, mode: CheckMode, c: Point, kind: Kind, node: NodeRef, n: nat): (ps: seq<Point>)
    requires PointOk(cx, c) && n <= |cx.preds(node, kind)|
    ensures forall p :: p in ps ==> PointOk(cx, p) && Budget(cx, p) == Budget(cx, c)
  {
    if n == 0 then []
    else
      var e := cx.preds(node, kind)[n - 1];
      Follows(cx, mode, c, kind, node, n - 1) +
        (if InWindow(cx, e.src, node) then [Follow(cx, mode, c, kind, node, e)] else [])
  }

  function FromStore(mode: CheckMode, c: Point, store: NodeRef, load: NodeRef): Point {
    c.(actions := c.actions + [Action(store, RF, load)],
       cons := Asserting(mode, c.cons, {ReadsFrom(store, load), Executed(store, EXEC)}))
  }

  /** The points after following one of the first `n` stores the load may read from, and then a data edge. */
  ghost function ViaStores(cx: Search, mode: CheckMode, c: Point, load: NodeRef, n: nat): (ps: seq<Point>)
    requires PointOk(cx, c) && n <= |cx.stores(load)|
    ensures forall p :: p in ps ==> PointOk(cx, p) && Budget(cx, p) == Budget(cx, c)
  {
    if n == 0 then []
    else
      var store := cx.stores(load)[n - 1];
      ViaStores(cx, mode, c, load, n - 1) +
      if store in cx.window then Follows(cx, mode, FromStore(mode, c, store, load), DATA, store,
                                         |cx.preds(store, DATA)|) else []
  }

  /** The point at which traceback has asserted that the current node reads. */
  function Deeper(mode: CheckMode, c: Point): Point
    requires |c.vec| > 0
  {
    c.(depth := c.depth + 1, cons := Asserting(mode, c.cons, {Reads(At(c))}))
  }

  ghost function Tracebacks(cx: Search, mode: CheckMode, c: Point): (ps: seq<Point>)
    requires PointOk(cx, c) && c.depth < cx.maxTraceback
    ensures forall p :: p in ps ==> PointOk(cx, p) && Budget(cx, p) < Budget(cx, c)
  {
    var load := At(c);
    ViaStores(cx, mode, Deeper(mode, c), load, |cx.stores(load)|) +
      Follows(cx, mode, Deeper(mode, c), ADDR, load, |cx.preds(load, ADDR)|)
  }

  // ---------------------------------------------------------------- what is reported

  predicate Refuted(cx: Search, mode: CheckMode, cons: set<Constraint>) {
    mode == SLOW && cx.refuted(cons)
  }

  predicate Unsat(cx: Search, mode: CheckMode, cons: set<Constraint>) {
    mode == SLOW && cx.unsat(cons)
  }

  predicate Analysed(cx: Search) {
    cx.leaf.SpectreV1? && cx.leaf.analysis
  }

  predicate Accepted(cx: Search, c: Point)
    requires |c.vec| > 0
  {
    Analysed(cx) ==> cx.leaf.tainted(At(c))
  }

  function LeafConstraints(cx: Search): set<Constraint> {
    if Analysed(cx) then {BranchTainted} else {}
  }

  function LeakAt(c: Point): Leak
    requires |c.vec| > 0
  {
    Leak(Digraph.Reversed(c.vec), c.vec[0], c.actions)
  }

  /** The leaf check's report once all dependencies are found. */
  ghost function Leaf(cx: Search, mode: CheckMode, c: Point): seq<Leak>
    requires |c.vec| > 0
  {
    match cx.leaf
    case SpectreV1(_, _) =>
      if Unsat(cx, mode, c.cons) || !Accepted(cx, c) || Unsat(cx, mode, c.cons + LeafConstraints(cx)) then []
      else [LeakAt(c)]
    case OtherLeaf(fast, report, _) =>
      if mode == SLOW then report(c) else if fast(c) then [LeakAt(c)] else []
  }

  /** What the leaf check leaves asserted for the rest of the enclosing scope. */
  ghost function AfterLeaf(cx: Search, mode: CheckMode, c: Point): Point
    requires |c.vec| > 0
  {
    match cx.leaf
    case SpectreV1(_, _) =>
      if Unsat(cx, mode, c.cons) || !Accepted(cx, c) then c
      else c.(cons := Asserting(mode, c.cons, LeafConstraints(cx)))
    case OtherLeaf(_, _, left) =>
      c.(cons := Asserting(mode, c.cons, set x | x in left(c)))
  }

  /** The leaks that the search reports from a point, in order. */
  ghost function Visit(cx: Search, mode: CheckMode, c: Point): seq<Leak>
    requires PointOk(cx, c)
    decreases Budget(cx, c), 1, 0
  {
    if c.it == |cx.deps| then
      if Refuted(cx, mode, c.cons) then [] else Leaf(cx, mode, c) + Onward(cx, mode, AfterLeaf(cx, mode, c))
    else
      var n := |cx.preds(At(c), DepAt(cx, c.it).kind)|;
      if n == 0 then Onward(cx, mode, c)
      else if Refuted(cx, mode, c.cons) then []
      else VisitAll(cx, mode, Budget(cx, c), Commits(cx, mode, c, n)) + Onward(cx, mode, c)
  }

  ghost function Onward(cx: Search, mode: CheckMode, c: Point): seq<Leak>
    requires PointOk(cx, c)
    decreases Budget(cx, c), 0, |c.vec| + 1
  {
    if At(c) == c.vec[0] || c.depth == cx.maxTraceback || Refuted(cx, mode, Deeper(mode, c).cons) then []
    else VisitAll(cx, mode, Budget(cx, c), Tracebacks(cx, mode, c))
  }

  ghost predicate Below(cx: Search, b: nat, ps: seq<Point>) {
    forall p :: p in ps ==> PointOk(cx, p) && Budget(cx, p) < b
  }

  ghost function VisitAll(cx: Search, mode: CheckMode, b: nat, ps: seq<Point>): seq<Leak>
    requires Below(cx, b, ps)
    decreases b, 0, 0, |ps|
  {
    if ps == [] then [] else VisitAll(cx, mode, b, ps[..|ps| - 1]) + Visit(cx, mode, ps[|ps| - 1])
  }
}
