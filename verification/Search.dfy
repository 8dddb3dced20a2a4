/** The detector job: the backward dependency search over shared stacks, with the
    solver-free lookahead that prunes through exceptions. Callbacks are named by
    the places that pass them: the search always continues either with the wanted
    dependencies or with the data edges of a store. */
module Search {
  import Digraph
  import opened SearchSpec
  import opened SearchTheorems

  /** A call returns, or raises lookahead_found or next_transmitter. */
  datatype Outcome = Returned | LookaheadFound | NextTransmitter

  datatype Thunk = Deps(it: nat, from: NodeRef) | Data(it: nat, store: NodeRef)

  datatype EdgeRef = EdgeRef(src: NodeRef, dst: NodeRef, kind: Kind)

  function Reported(fastMode: bool, found: seq<Leak>): seq<Leak> {
    if fastMode && found != [] then [found[0]] else found
  }

  /** How a call that explores `found` ends. In fast mode the first report ends the search. */
  ghost predicate Ends(mode: CheckMode, fastMode: bool, found: seq<Leak>, before: seq<Leak>, after: seq<Leak>,
                       r: Outcome) {
    match mode
    case FAST => after == before && r == (if found == [] then Returned else LookaheadFound)
    case SLOW =>
      && after == before + Reported(fastMode, found)
      && r == (if fastMode && found != [] then NextTransmitter else Returned)
  }

  /** Exploring one part and then, if that returned, another. */
  lemma EndsThen(mode: CheckMode, fastMode: bool, f1: seq<Leak>, f2: seq<Leak>, l0: seq<Leak>, l1: seq<Leak>,
                 l2: seq<Leak>, r1: Outcome, r2: Outcome)
    requires Ends(mode, fastMode, f1, l0, l1, r1)
    requires if r1 == Returned then Ends(mode, fastMode, f2, l1, l2, r2) else l2 == l1 && r2 == r1
    ensures Ends(mode, fastMode, f1 + f2, l0, l2, r2)
  {
    if mode == SLOW && r1 == Returned {
      assert f1 == [] || !fastMode;
      assert f1 == [] ==> f1 + f2 == f2 && l1 == l0;
      assert l0 + f1 + f2 == l0 + (f1 + f2);
    }
  }

  lemma CommitsExtend(cx: SearchSpec.Search, mode: CheckMode, c: Point, i: nat)
    requires PointOk(cx, c) && c.it < |cx.deps| && i < |cx.preds(At(c), DepAt(cx, c.it).kind)|
    ensures var e, b := cx.preds(At(c), DepAt(cx, c.it).kind)[i], Budget(cx, c);
            VisitAll(cx, mode, b, Commits(cx, mode, c, i + 1)) ==
            VisitAll(cx, mode, b, Commits(cx, mode, c, i)) +
              if InWindow(cx, e.src, At(c)) then Visit(cx, mode, Commit(cx, mode, c, e)) else []
  {
    hide Visit;
    var e, ps := cx.preds(At(c), DepAt(cx, c.it).kind)[i], Commits(cx, mode, c, i);
    VisitAllSnoc(cx, mode, Budget(cx, c), ps, Commit(cx, mode, c, e));
    assert ps + [] == ps;
  }

  lemma NoCommits(cx: SearchSpec.Search, mode: CheckMode, c: Point)
    requires PointOk(cx, c) && c.it < |cx.deps|
    ensures CommitsFound(cx, mode, c, 0) == []
  {
  }

  lemma {:induction false} CommitsPrefix(cx: SearchSpec.Search, mode: CheckMode, c: Point, i: nat, n: nat)
    requires PointOk(cx, c) && c.it < |cx.deps| && i <= n <= |cx.preds(At(c), DepAt(cx, c.it).kind)|
    ensures VisitAll(cx, mode, Budget(cx, c), Commits(cx, mode, c, i)) <=
            VisitAll(cx, mode, Budget(cx, c), Commits(cx, mode, c, n))
    decreases n
  {
    hide VisitAll, Commits, Visit;
    if i < n {
      CommitsPrefix(cx, mode, c, i, n - 1);
      CommitsExtend(cx, mode, c, n - 1);
    }
  }

  lemma FollowsExtend(cx: SearchSpec.Search, mode: CheckMode, c: Point, kind: Kind, node: NodeRef, i: nat)
    requires PointOk(cx, c) && i < |cx.preds(node, kind)|
    ensures var e, b := cx.preds(node, kind)[i], Budget(cx, c) + 1;
            VisitAll(cx, mode, b, Follows(cx, mode, c, kind, node, i + 1)) ==
            VisitAll(cx, mode, b, Follows(cx, mode, c, kind, node, i)) +
            if InWindow(cx, e.src, node) then Visit(cx, mode, Follow(cx, mode, c, kind, node, e)) else []
  {
    hide Visit;
    var e, ps := cx.preds(node, kind)[i], Follows(cx, mode, c, kind, node, i);
    VisitAllSnoc(cx, mode, Budget(cx, c) + 1, ps, Follow(cx, mode, c, kind, node, e));
    assert ps + [] == ps;
  }

  lemma NoFollows(cx: SearchSpec.Search, mode: CheckMode, c: Point, kind: Kind, node: NodeRef)
    requires PointOk(cx, c)
    ensures FollowsFound(cx, mode, c, kind, node, 0) == []
  {
  }

  lemma {:induction false} FollowsPrefix(cx: SearchSpec.Search, mode: CheckMode, c: Point, kind: Kind, node: NodeRef,
                                         i: nat, n: nat)
    requires PointOk(cx, c) && i <= n <= |cx.preds(node, kind)|
    ensures VisitAll(cx, mode, Budget(cx, c) + 1, Follows(cx, mode, c, kind, node, i)) <=
            VisitAll(cx, mode, Budget(cx, c) + 1, Follows(cx, mode, c, kind, node, n))
    decreases n
  {
    hide VisitAll, Follows, Visit;
    if i < n {
      FollowsPrefix(cx, mode, c, kind, node, i, n - 1);
      FollowsExtend(cx, mode, c, kind, node, n - 1);
    }
  }

  lemma VisitAllSnoc(cx: SearchSpec.Search, mode: CheckMode, b: nat, ps: seq<Point>, p: Point)
    requires Below(cx, b, ps) && PointOk(cx, p) && Budget(cx, p) < b
    ensures Below(cx, b, ps + [p]) && VisitAll(cx, mode, b, ps + [p]) == VisitAll(cx, mode, b, ps) + Visit(cx, mode, p)
  {
    hide Visit;
    var all := ps + [p];
    assert all[..|all| - 1] == ps;
  }

  ghost function DataPoints(cx: SearchSpec.Search, mode: CheckMode, c: Point, load: NodeRef, store: NodeRef): seq<Point>
    requires PointOk(cx, c)
  {
    Follows(cx, mode, FromStore(mode, c, store, load), DATA, store, |cx.preds(store, DATA)|)
  }

  lemma ViaStoresExtend(cx: SearchSpec.Search, mode: CheckMode, c: Point, load: NodeRef, i: nat)
    requires PointOk(cx, c) && i < |cx.stores(load)|
    ensures var store, b := cx.stores(load)[i], Budget(cx, c) + 1;
            VisitAll(cx, mode, b, ViaStores(cx, mode, c, load, i + 1)) ==
            VisitAll(cx, mode, b, ViaStores(cx, mode, c, load, i)) +
            if store in cx.window then VisitAll(cx, mode, b, DataPoints(cx, mode, c, load, store)) else []
  {
    hide Visit, Follows, VisitAll;
    var store, b, ps := cx.stores(load)[i], Budget(cx, c) + 1, ViaStores(cx, mode, c, load, i);
    if store in cx.window {
      VisitAllConcat(cx, mode, b, ps, DataPoints(cx, mode, c, load, store));
    } else {
      assert ps + [] == ps;
    }
  }

  lemma NoStores(cx: SearchSpec.Search, mode: CheckMode, c: Point, load: NodeRef)
    requires PointOk(cx, c)
    ensures StoresFound(cx, mode, c, load, 0) == []
  {
  }

  lemma {:induction false} ViaStoresPrefix(cx: SearchSpec.Search, mode: CheckMode, c: Point, load: NodeRef, i: nat,
                                           n: nat)
    requires PointOk(cx, c) && i <= n <= |cx.stores(load)|
    ensures VisitAll(cx, mode, Budget(cx, c) + 1, ViaStores(cx, mode, c, load, i)) <=
            VisitAll(cx, mode, Budget(cx, c) + 1, ViaStores(cx, mode, c, load, n))
    decreases n
  {
    hide VisitAll, ViaStores, Visit;
    if i < n {
      ViaStoresPrefix(cx, mode, c, load, i, n - 1);
      ViaStoresExtend(cx, mode, c, load, n - 1);
    }
  }

  /** If no data edge of the store leads anywhere without the solver, none does with it. */
  lemma StorePruned(cx: SearchSpec.Search, c: Point, load: NodeRef, store: NodeRef)
    requires LeafLaw(cx) && PointOk(cx, c)
    requires VisitAll(cx, FAST, Budget(cx, c) + 1, Follows(cx, FAST, c, DATA, store, |cx.preds(store, DATA)|)) == []
    ensures VisitAll(cx, SLOW, Budget(cx, c) + 1, DataPoints(cx, SLOW, c, load, store)) == []
  {
    hide VisitAll, Follows;
    var ps, ps' := DataPoints(cx, SLOW, c, load, store), Follows(cx, FAST, c, DATA, store, |cx.preds(store, DATA)|);
    FollowsAlike(cx, FromStore(SLOW, c, store, load), c, DATA, store, |cx.preds(store, DATA)|);
    if VisitAll(cx, SLOW, Budget(cx, c) + 1, ps) != [] {
      AllComplete(cx, Budget(cx, c) + 1, ps, ps');
    }
  }

  lemma EdgePruned(cx: SearchSpec.Search, c: Point, kind: Kind, node: NodeRef, e: InEdge, c': Point)
    requires LeafLaw(cx) && PointOk(cx, c) && PointOk(cx, c') && Alike(Follow(cx, SLOW, c, kind, node, e), c')
    requires Visit(cx, FAST, c') == []
    ensures Visit(cx, SLOW, Follow(cx, SLOW, c, kind, node, e)) == []
  {
    hide Visit;
    if Visit(cx, SLOW, Follow(cx, SLOW, c, kind, node, e)) != [] {
      LookaheadComplete(cx, Follow(cx, SLOW, c, kind, node, e), c');
    }
  }

  lemma OnwardSplits(cx: SearchSpec.Search, mode: CheckMode, c: Point)
    requires PointOk(cx, c) && At(c) != c.vec[0] && c.depth < cx.maxTraceback
    requires !Refuted(cx, mode, Deeper(mode, c).cons)
    ensures var d, load := Deeper(mode, c), At(c);
            && Budget(cx, d) + 1 == Budget(cx, c)
            && Onward(cx, mode, c) ==
               VisitAll(cx, mode, Budget(cx, d) + 1, ViaStores(cx, mode, d, load, |cx.stores(load)|)) +
               VisitAll(cx, mode, Budget(cx, d) + 1, Follows(cx, mode, d, ADDR, load, |cx.preds(load, ADDR)|))
  {
    hide VisitAll, ViaStores, Follows;
    var d, load := Deeper(mode, c), At(c);
    VisitAllConcat(cx, mode, Budget(cx, c), ViaStores(cx, mode, d, load, |cx.stores(load)|),
                   Follows(cx, mode, d, ADDR, load, |cx.preds(load, ADDR)|));
  }

  lemma NothingYet(mode: CheckMode, fastMode: bool, l: seq<Leak>)
    ensures Ends(mode, fastMode, [], l, l, Returned)
  {
  }

  lemma OnwardNot(cx: SearchSpec.Search, mode: CheckMode, c: Point)
    requires PointOk(cx, c)
    requires (At(c) == c.vec[0] || c.depth == cx.maxTraceback || Refuted(cx, mode, Deeper(mode, c).cons))
    ensures Onward(cx, mode, c) == []
  {
  }

  /** A failed lookahead, which sees the current node twice, means that there is nothing to report. */
  lemma Pruned(cx: SearchSpec.Search, c: Point, vec: seq<NodeRef>, l: seq<Leak>, fastMode: bool)
    requires LeafLaw(cx) && PointOk(cx, c) && vec == c.vec + [At(c)] && Visit(cx, FAST, c.(vec := vec)) == []
    ensures Visit(cx, SLOW, c) == [] && Ends(SLOW, fastMode, Visit(cx, SLOW, c), l, l, Returned)
  {
    hide Visit, LeafLaw;
    if Visit(cx, SLOW, c) != [] {
      LookaheadComplete(cx, c, c.(vec := vec));
    }
  }

  lemma EndsEarly(mode: CheckMode, fastMode: bool, f1: seq<Leak>, f: seq<Leak>, l0: seq<Leak>, l1: seq<Leak>,
                  r: Outcome)
    requires f1 <= f && r != Returned && Ends(mode, fastMode, f1, l0, l1, r)
    ensures Ends(mode, fastMode, f, l0, l1, r)
  {
  }

  // ---------------------------------------------------------------- what the loops find

  /** What the first `n` edges of the next wanted dependency lead to. */
  ghost function CommitsFound(cx: SearchSpec.Search, mode: CheckMode, c: Point, n: nat): seq<Leak>
    requires PointOk(cx, c) && c.it < |cx.deps| && n <= |cx.preds(At(c), DepAt(cx, c.it).kind)|
  {
    VisitAll(cx, mode, Budget(cx, c), Commits(cx, mode, c, n))
  }

  /** What the first `n` edges of one kind into `node` lead to. */
  ghost function FollowsFound(cx: SearchSpec.Search, mode: CheckMode, c: Point, kind: Kind, node: NodeRef,
                              n: nat): seq<Leak>
    requires PointOk(cx, c) && n <= |cx.preds(node, kind)|
  {
    VisitAll(cx, mode, Budget(cx, c) + 1, Follows(cx, mode, c, kind, node, n))
  }

  /** What the data of one store leads to. */
  ghost function StoreFound(cx: SearchSpec.Search, mode: CheckMode, c: Point, load: NodeRef, store: NodeRef): seq<Leak>
    requires PointOk(cx, c)
  {
    VisitAll(cx, mode, Budget(cx, c) + 1, DataPoints(cx, mode, c, load, store))
  }

  /** What the first `n` stores lead to. */
  ghost function StoresFound(cx: SearchSpec.Search, mode: CheckMode, c: Point, load: NodeRef, n: nat): seq<Leak>
    requires PointOk(cx, c) && n <= |cx.stores(load)|
  {
    VisitAll(cx, mode, Budget(cx, c) + 1, ViaStores(cx, mode, c, load, n))
  }

  lemma FoundIsStore(cx: SearchSpec.Search, mode: CheckMode, c: Point, load: NodeRef, store: NodeRef)
    requires PointOk(cx, c)
    ensures PointOk(cx, FromStore(mode, c, store, load))
    ensures FollowsFound(cx, mode, FromStore(mode, c, store, load), DATA, store, |cx.preds(store, DATA)|) ==
            StoreFound(cx, mode, c, load, store)
  {
    hide VisitAll, Follows;
  }

  lemma CommitsNext(cx: SearchSpec.Search, mode: CheckMode, fastMode: bool, c: Point, i: nat, l0: seq<Leak>,
                    l1: seq<Leak>, l2: seq<Leak>, r: Outcome)
    requires PointOk(cx, c) && c.it < |cx.deps| && i < |cx.preds(At(c), DepAt(cx, c.it).kind)|
    requires Ends(mode, fastMode, CommitsFound(cx, mode, c, i), l0, l1, Returned)
    requires var e := cx.preds(At(c), DepAt(cx, c.it).kind)[i];
             Ends(mode, fastMode, if InWindow(cx, e.src, At(c)) then Visit(cx, mode, Commit(cx, mode, c, e)) else [],
                  l1, l2, r)
    ensures Ends(mode, fastMode, CommitsFound(cx, mode, c, i + 1), l0, l2, r)
    ensures r != Returned ==>
            Ends(mode, fastMode, CommitsFound(cx, mode, c, |cx.preds(At(c), DepAt(cx, c.it).kind)|), l0, l2, r)
  {
    hide VisitAll, Visit, Commits, Ends;
    var n := |cx.preds(At(c), DepAt(cx, c.it).kind)|;
    var e := cx.preds(At(c), DepAt(cx, c.it).kind)[i];
    CommitsExtend(cx, mode, c, i);
    EndsThen(mode, fastMode, CommitsFound(cx, mode, c, i),
             if InWindow(cx, e.src, At(c)) then Visit(cx, mode, Commit(cx, mode, c, e)) else [],
             l0, l1, l2, Returned, r);
    if r != Returned {
      CommitsPrefix(cx, mode, c, i + 1, n);
      EndsEarly(mode, fastMode, CommitsFound(cx, mode, c, i + 1), CommitsFound(cx, mode, c, n), l0, l2, r);
    }
  }

  lemma FollowsNext(cx: SearchSpec.Search, mode: CheckMode, fastMode: bool, c: Point, kind: Kind, node: NodeRef, i: nat,
                    l0: seq<Leak>, l1: seq<Leak>, l2: seq<Leak>, r: Outcome)
    requires PointOk(cx, c) && i < |cx.preds(node, kind)|
    requires Ends(mode, fastMode, FollowsFound(cx, mode, c, kind, node, i), l0, l1, Returned)
    requires var e := cx.preds(node, kind)[i];
             Ends(mode, fastMode,
                  if InWindow(cx, e.src, node) then Visit(cx, mode, Follow(cx, mode, c, kind, node, e)) else [],
                  l1, l2, r)
    ensures Ends(mode, fastMode, FollowsFound(cx, mode, c, kind, node, i + 1), l0, l2, r)
    ensures r != Returned ==>
            Ends(mode, fastMode, FollowsFound(cx, mode, c, kind, node, |cx.preds(node, kind)|), l0, l2, r)
  {
    hide VisitAll, Visit, Follows, Ends;
    var n, e := |cx.preds(node, kind)|, cx.preds(node, kind)[i];
    FollowsExtend(cx, mode, c, kind, node, i);
    EndsThen(mode, fastMode, FollowsFound(cx, mode, c, kind, node, i),
             if InWindow(cx, e.src, node) then Visit(cx, mode, Follow(cx, mode, c, kind, node, e)) else [],
             l0, l1, l2, Returned, r);
    if r != Returned {
      FollowsPrefix(cx, mode, c, kind, node, i + 1, n);
      EndsEarly(mode, fastMode, FollowsFound(cx, mode, c, kind, node, i + 1), FollowsFound(cx, mode, c, kind, node, n),
                l0, l2, r);
    }
  }

  lemma StoresNext(cx: SearchSpec.Search, mode: CheckMode, fastMode: bool, c: Point, load: NodeRef, i: nat,
                   l0: seq<Leak>, l1: seq<Leak>, l2: seq<Leak>, r: Outcome)
    requires PointOk(cx, c) && i < |cx.stores(load)|
    requires Ends(mode, fastMode, StoresFound(cx, mode, c, load, i), l0, l1, Returned)
    requires var store := cx.stores(load)[i];
             Ends(mode, fastMode, if store in cx.window then StoreFound(cx, mode, c, load, store) else [], l1, l2, r)
    ensures Ends(mode, fastMode, StoresFound(cx, mode, c, load, i + 1), l0, l2, r)
    ensures r != Returned ==> Ends(mode, fastMode, StoresFound(cx, mode, c, load, |cx.stores(load)|), l0, l2, r)
  {
    hide VisitAll, ViaStores, DataPoints, Ends;
    var n, store := |cx.stores(load)|, cx.stores(load)[i];
    ViaStoresExtend(cx, mode, c, load, i);
    EndsThen(mode, fastMode, StoresFound(cx, mode, c, load, i),
             if store in cx.window then StoreFound(cx, mode, c, load, store) else [],
             l0, l1, l2, Returned, r);
    if r != Returned {
      ViaStoresPrefix(cx, mode, c, load, i + 1, n);
      EndsEarly(mode, fastMode, StoresFound(cx, mode, c, load, i + 1), StoresFound(cx, mode, c, load, n), l0, l2, r);
    }
  }

  lemma VisitRefuted(cx: SearchSpec.Search, c: Point)
    requires PointOk(cx, c) && cx.refuted(c.cons) && (c.it < |cx.deps| ==> cx.preds(At(c), DepAt(cx, c.it).kind) != [])
    ensures Visit(cx, SLOW, c) == []
  {
  }

  lemma VisitSplits(cx: SearchSpec.Search, mode: CheckMode, c: Point, c1: Point, first: seq<Leak>)
    requires PointOk(cx, c)
    requires !Refuted(cx, mode, c.cons) || (c.it < |cx.deps| && cx.preds(At(c), DepAt(cx, c.it).kind) == [])
    requires if c.it == |cx.deps| then first == Leaf(cx, mode, c) && c1 == AfterLeaf(cx, mode, c)
             else
               && c1 == c
               && first == VisitAll(cx, mode, Budget(cx, c),
                                    Commits(cx, mode, c, |cx.preds(At(c), DepAt(cx, c.it).kind)|))
    ensures PointOk(cx, c1) && Visit(cx, mode, c) == first + Onward(cx, mode, c1)
  {
    hide Onward, Leaf;
  }

  lemma TransmitterPruned(cx: SearchSpec.Search, c: Point, c': Point)
    requires LeafLaw(cx) && PointOk(cx, c) && PointOk(cx, c') && Alike(c, c') && Visit(cx, FAST, c') == []
    ensures Visit(cx, SLOW, c) == []
  {
    hide Visit, LeafLaw;
    if Visit(cx, SLOW, c) != [] {
      LookaheadComplete(cx, c, c');
    }
  }

  class DetectorJob {
    const cx: SearchSpec.Search
    const useLookahead: bool
    const fastMode: bool
    /** The instruction behind each node, and the exits. */
    const inst: NodeRef -> nat
    const exits: set<NodeRef>

    var vec: seq<NodeRef>
    var actions: seq<Action>
    var flagEdges: seq<EdgeRef>
    var tracebackDepth: nat
    var lookaheadTmp: bool
    var leaks: seq<Leak>
    /** The instructions already reported as transmitters. */
    var transmitters: set<nat>
    var rf: map<NodeRef, seq<NodeRef>>
    /** The solver: what is asserted, and how much of it each open scope found. */
    var asserted: seq<Constraint>
    var scopes: seq<nat>

    /** The transmitters noted are those of the leaks reported. */
    ghost predicate Noted()
      reads this`leaks, this`transmitters
    {
      forall i :: i in transmitters <==> exists k :: 0 <= k < |leaks| && inst(leaks[k].transmitter) == i
    }

    ghost predicate Valid()
      reads this`tracebackDepth, this`lookaheadTmp, this`rf, this`leaks, this`transmitters
    {
      && Noted()
      && tracebackDepth <= cx.maxTraceback
      && (if useLookahead then LeafLaw(cx) else lookaheadTmp)
      && (forall load :: load in rf ==> rf[load] == cx.stores(load))
    }

    constructor (cx: SearchSpec.Search, inst: NodeRef -> nat, exits: set<NodeRef>, useLookahead: bool, fastMode: bool,
                 base: seq<Constraint>)
      requires useLookahead ==> LeafLaw(cx)
      ensures Valid() && this.cx == cx && this.useLookahead == useLookahead && this.fastMode == fastMode
      ensures this.inst == inst && this.exits == exits && transmitters == {}
      ensures vec == [] && actions == [] && tracebackDepth == 0 && leaks == [] && asserted == base && scopes == []
    {
      this.cx, this.useLookahead, this.fastMode := cx, useLookahead, fastMode;
      vec, actions, flagEdges, tracebackDepth, lookaheadTmp, leaks, rf := [], [], [], 0, true, [], map[];
      asserted, scopes, transmitters := base, [], {};
      this.inst, this.exits := inst, exits;
    }

    // -------------------------------------------------------------- the solver

    function Assertions(): set<Constraint>
      reads this`asserted
    {
      set c | c in asserted
    }

    method PushScope(mode: CheckMode)
      modifies this`scopes
      ensures scopes == if mode == SLOW then old(scopes) + [|asserted|] else old(scopes)
    {
      if mode == SLOW {
        scopes := scopes + [|asserted|];
      }
    }

    /** Drops what was asserted since the innermost scope was opened. */
    method PopScope(mode: CheckMode)
      requires mode == SLOW ==> |scopes| > 0 && scopes[|scopes| - 1] <= |asserted|
      modifies this`scopes, this`asserted
      ensures mode == FAST ==> scopes == old(scopes) && asserted == old(asserted)
      ensures mode == SLOW ==>
              scopes == old(scopes[..|scopes| - 1]) && asserted == old(asserted[..scopes[|scopes| - 1]])
    {
      if mode == SLOW {
        asserted := asserted[..scopes[|scopes| - 1]];
        scopes := scopes[..|scopes| - 1];
      }
    }

    method Add(c: Constraint)
      modifies this`asserted
      ensures asserted == old(asserted) + [c] && Assertions() == old(Assertions()) + {c}
    {
      asserted := asserted + [c];
    }

    method AssertEdge(kind: Kind, e: InEdge, dst: NodeRef)
      modifies this`asserted
      ensures old(asserted) <= asserted && Assertions() == old(Assertions()) + EdgeConstraints(cx, kind, e, dst)
    {
      asserted := asserted + [Exists(kind, e.src, dst, e.cond), TransAlong(e.src, dst), ArchAlong(e.src, dst)];
      var refs := cx.within(e.src, dst);
      for i := 0 to |refs|
        invariant old(asserted) <= asserted
        invariant Assertions() ==
                  old(Assertions()) +
                  {Exists(kind, e.src, dst, e.cond), TransAlong(e.src, dst), ArchAlong(e.src, dst)} +
                  set r | r in refs[..i] :: Executed(r, EXEC)
      {
        assert refs[..i + 1] == refs[..i] + [refs[i]];
        Add(Executed(refs[i], EXEC));
      }
      assert refs[..|refs|] == refs;
    }

    method RfSources(load: NodeRef) returns (stores: seq<NodeRef>)
      requires Valid()
      modifies this`rf
      ensures Valid() && stores == cx.stores(load)
    {
      if load !in rf {
        rf := rf[load := cx.stores(load)];
      }
      stores := rf[load];
    }

    // -------------------------------------------------------------- frames

    /** Whatever way a call ends, the stacks are as it found them. */
    twostate predicate Restored()
      reads this
    {
      vec == old(vec) && actions == old(actions) && flagEdges == old(flagEdges) &&
        tracebackDepth == old(tracebackDepth) && scopes == old(scopes)
    }

    /** Of all that is asserted only what leaf checks leave outlives its scope; that of Spectre v1 leaves
        only the tainted branch. */
    twostate predicate OnlyLeafAdded()
      reads this
    {
      old(asserted) <= asserted &&
      (cx.leaf.SpectreV1? ==> forall i :: |old(asserted)| <= i < |asserted| ==> asserted[i] == BranchTainted)
    }

    /** Lookahead touches neither the solver nor the reports. */
    twostate predicate Untouched()
      reads this
    {
      asserted == old(asserted) && leaks == old(leaks) && transmitters == old(transmitters)
    }

    ghost function Here(it: nat): Point
      reads this`vec, this`actions, this`tracebackDepth, this`asserted
    {
      Point(it, vec, actions, tracebackDepth, Assertions())
    }

    ghost predicate CanVisit(it: nat, from: NodeRef)
      reads this`vec
    {
      it <= |cx.deps| && (vec != [] ==> from in cx.window || from == vec[0])
    }

    // -------------------------------------------------------------- lookahead

    method Lookahead(thunk: Thunk) returns (go: bool)
      requires Valid() && (thunk.Deps? ==> CanVisit(thunk.it, thunk.from))
      requires thunk.Data? ==> thunk.it <= |cx.deps| && vec != []
      modifies this
      ensures Valid() && Restored() && Untouched() && (go ==> lookaheadTmp)
      ensures !useLookahead ==> go
      ensures useLookahead && thunk.Deps? ==>
              var c := old(Point(thunk.it, vec + [thunk.from], actions, tracebackDepth, Assertions()));
              go == (Visit(cx, FAST, c) != [])
      ensures useLookahead && thunk.Data? ==>
              var c := old(Here(thunk.it));
              var ps := Follows(cx, FAST, c, DATA, thunk.store, |cx.preds(thunk.store, DATA)|);
              go == (VisitAll(cx, FAST, Budget(cx, c) + 1, ps) != [])
      decreases 0, |cx.deps| - thunk.it + cx.maxTraceback - tracebackDepth, 8
    {
      hide Visit, VisitAll, Follows, Noted;
      if !useLookahead {
        return true;
      }
      var r;
      match thunk {
        case Deps(it, from) =>
          r := TracebackDepsRec(it, from, FAST);
        case Data(it, store) =>
          r := TracebackEdge(DATA, store, it, FAST);
      }
      lookaheadTmp := r == LookaheadFound;
      go := lookaheadTmp;
    }

    // -------------------------------------------------------------- the leaf check

    /** The detector's check once all dependencies are found. */
    method RunPostdeps(mode: CheckMode) returns (r: Outcome)
      requires Valid() && vec != [] && (mode == SLOW ==> lookaheadTmp)
      modifies this`asserted, this`leaks, this`transmitters
      ensures Valid()
      ensures mode == FAST ==> asserted == old(asserted) && transmitters == old(transmitters)
      ensures OnlyLeafAdded()
      ensures var c := old(Here(|cx.deps|));
              && Ends(mode, fastMode, Leaf(cx, mode, c), old(leaks), leaks, r)
              && (mode == SLOW ==> Assertions() == AfterLeaf(cx, SLOW, c).cons)
    {
      hide LeafLaw, Noted;
      match cx.leaf {
        case SpectreV1(_, _) =>
          r := RunSpectreV1(mode);
        case OtherLeaf(_, _, _) =>
          r := RunOther(mode);
      }
    }

    method RunSpectreV1(mode: CheckMode) returns (r: Outcome)
      requires cx.leaf.SpectreV1? && vec != [] && (mode == SLOW ==> lookaheadTmp) && Noted()
      modifies this`asserted, this`leaks, this`transmitters
      ensures Noted()
      ensures mode == FAST ==> asserted == old(asserted) && transmitters == old(transmitters)
      ensures OnlyLeafAdded()
      ensures var c := old(Here(|cx.deps|));
              && Ends(mode, fastMode, Leaf(cx, mode, c), old(leaks), leaks, r)
              && (mode == SLOW ==> Assertions() == AfterLeaf(cx, SLOW, c).cons)
    {
      hide Noted;
      if mode == SLOW && cx.unsat(Assertions()) {
        return Returned;
      }
      if cx.leaf.analysis && !cx.leaf.tainted(vec[|vec| - 1]) {
        return Returned;
      }
      if mode == FAST {
        return LookaheadFound;
      }
      if cx.leaf.analysis {
        Add(BranchTainted);
      }
      assert Assertions() == AfterLeaf(cx, SLOW, old(Here(|cx.deps|))).cons;
      if cx.unsat(Assertions()) {
        return Returned;
      }
      r := OutputExecution(Leak(Digraph.Reversed(vec), vec[0], actions));
    }

    /** Any other check: counted on by lookahead or not, leaving constraints, and reporting one by one. */
    method RunOther(mode: CheckMode) returns (r: Outcome)
      requires cx.leaf.OtherLeaf? && vec != [] && (mode == SLOW ==> lookaheadTmp) && Noted()
      modifies this`asserted, this`leaks, this`transmitters
      ensures Noted()
      ensures mode == FAST ==> asserted == old(asserted) && transmitters == old(transmitters)
      ensures OnlyLeafAdded()
      ensures var c := old(Here(|cx.deps|));
              && Ends(mode, fastMode, Leaf(cx, mode, c), old(leaks), leaks, r)
              && (mode == SLOW ==> Assertions() == AfterLeaf(cx, SLOW, c).cons)
    {
      hide Noted;
      var c := Point(|cx.deps|, vec, actions, tracebackDepth, Assertions());
      if mode == FAST {
        return if cx.leaf.fast(c) then LookaheadFound else Returned;
      }
      asserted := asserted + cx.leaf.left(c);
      assert Assertions() == AfterLeaf(cx, SLOW, c).cons;
      var found := cx.leaf.report(c);
      r := Returned;
      for i := 0 to |found|
        invariant r == Returned && leaks == old(leaks) + found[..i] && (fastMode ==> i == 0)
        invariant asserted == old(asserted) + cx.leaf.left(c) && Noted()
      {
        r := OutputExecution(found[i]);
        assert found[..i + 1] == found[..i] + [found[i]];
        if r != Returned {
          assert found[..1] == [found[0]];
          return;
        }
      }
      assert found[..|found|] == found;
    }

    method OutputExecution(leak: Leak) returns (r: Outcome)
      requires lookaheadTmp
      modifies this`leaks, this`transmitters
      ensures leaks == old(leaks) + [leak] && transmitters == old(transmitters) + {inst(leak.transmitter)}
      ensures r == (if fastMode then NextTransmitter else Returned)
      ensures old(Noted()) ==> Noted()
    {
      ghost var n := |leaks|;
      leaks := leaks + [leak];
      assert leaks[n] == leak;
      assert forall k :: 0 <= k < n ==> leaks[k] == old(leaks)[k];
      transmitters := transmitters + {inst(leak.transmitter)};
      r := if fastMode then NextTransmitter else Returned;
    }

    // -------------------------------------------------------------- the search

    /** Search back from one transmitter within its window, whose constraints hold
        for the duration: what is reported does not depend on `useLookahead`. */
    method ForOneTransmitter(t: NodeRef, window: seq<Constraint>, order: seq<Constraint>)
      requires Valid() && vec == [] && actions == [] && tracebackDepth == 0
      modifies this
      ensures Valid() && Restored() && asserted == old(asserted)
      ensures var base := old(Assertions()) + set c | c in window;
              var start := Point(0, [t], [], 0, base + set c | c in order);
              var skipped := inst(t) in old(transmitters) || t in exits || cx.refuted(base);
              leaks == old(leaks) + Reported(fastMode, if skipped then [] else Visit(cx, SLOW, start))
    {
      hide Noted, Visit, LeafLaw, Leaf, AfterLeaf;
      ghost var base := Assertions() + set c | c in window;
      ghost var start := Point(0, [t], [], 0, base + set c | c in order);
      var go := Lookahead(Deps(0, t));
      if !go {
        TransmitterPruned(cx, start, Point(0, [] + [t], [], 0, Assertions()));
        return;
      }
      if inst(t) in transmitters || t in exits {
        return;
      }
      PushScope(SLOW);
      asserted := asserted + window;
      assert Assertions() == base;
      if !cx.refuted(Assertions()) {
        asserted := asserted + order;
        assert Assertions() == start.cons;
        assert vec + [t] == [t];
        var r := TracebackDepsRec(0, t, SLOW);
      }
      PopScope(SLOW);
    }

    /** Search on from `from`, with `it` dependencies found. */
    method TracebackDepsRec(it: nat, from: NodeRef, mode: CheckMode) returns (r: Outcome)
      requires Valid() && CanVisit(it, from)
      modifies this
      ensures Valid() && Restored() && OnlyLeafAdded()
      ensures mode == FAST ==> Untouched() && lookaheadTmp == old(lookaheadTmp)
      ensures var c := old(Point(it, vec + [from], actions, tracebackDepth, Assertions()));
              Ends(mode, fastMode, Visit(cx, mode, c), old(leaks), leaks, r)
      decreases if mode == SLOW then 1 else 0, |cx.deps| - it + cx.maxTraceback - tracebackDepth, 3
    {
      hide Noted, Visit, Ends;
      vec := vec + [from];
      ghost var c := Here(it);
      if mode == SLOW {
        var go := Lookahead(Deps(it, from));
        if !go {
          Pruned(cx, c, vec + [from], leaks, fastMode);
          vec := vec[..|vec| - 1];
          return Returned;
        }
      }
      r := CommitOrTrace(it, from, mode);
      vec := vec[..|vec| - 1];
    }

    /** Report or commit what is wanted next, and then trace back. */
    method CommitOrTrace(it: nat, from: NodeRef, mode: CheckMode) returns (r: Outcome)
      requires Valid() && it <= |cx.deps| && vec != [] && vec[|vec| - 1] == from
      requires from in cx.window || from == vec[0]
      requires mode == SLOW ==> lookaheadTmp
      modifies this
      ensures Valid() && Restored() && OnlyLeafAdded()
      ensures mode == FAST ==> Untouched() && lookaheadTmp == old(lookaheadTmp)
      ensures Ends(mode, fastMode, Visit(cx, mode, old(Here(it))), old(leaks), leaks, r)
      decreases if mode == SLOW then 1 else 0, |cx.deps| - it + cx.maxTraceback - tracebackDepth, 2
    {
      hide Noted, VisitAll, Commits, Onward, Ends, Leaf, Visit;
      ghost var c := Here(it);
      ghost var first: seq<Leak> := [];
      r := Returned;
      NothingYet(mode, fastMode, leaks);
      if it < |cx.deps| {
        NoCommits(cx, mode, c);
      }
      if it == |cx.deps| {
        if mode == SLOW && cx.refuted(Assertions()) {
          VisitRefuted(cx, c);
          return Returned;
        }
        first := Leaf(cx, mode, c);
        r := RunPostdeps(mode);
      } else {
        var es := cx.preds(from, DepAt(cx, it).kind);
        if es != [] {
          if mode == SLOW && cx.refuted(Assertions()) {
            VisitRefuted(cx, c);
            return Returned;
          }
          first := VisitAll(cx, mode, Budget(cx, c), Commits(cx, mode, c, |es|));
          r := CommitEach(it, from, mode);
        }
      }
      ghost var c1, l1, r1 := Here(it), leaks, r;
      VisitSplits(cx, mode, c, c1, first);
      if r == Returned {
        r := TraceOn(from, it, mode);
      }
      EndsThen(mode, fastMode, first, Onward(cx, mode, c1), old(leaks), l1, leaks, r1, r);
    }

    method TraceOn(from: NodeRef, it: nat, mode: CheckMode) returns (r: Outcome)
      requires Valid() && it <= |cx.deps| && vec != [] && vec[|vec| - 1] == from
      requires from in cx.window || from == vec[0]
      modifies this
      ensures Valid() && Restored() && asserted == old(asserted)
      ensures mode == FAST ==> Untouched() && lookaheadTmp == old(lookaheadTmp)
      ensures Ends(mode, fastMode, Onward(cx, mode, old(Here(it))), old(leaks), leaks, r)
      decreases if mode == SLOW then 1 else 0, |cx.deps| - it + cx.maxTraceback - tracebackDepth, 1
    {
      hide Noted, Onward, Ends;
      if from != vec[0] {
        r := Traceback(from, it, mode);
      } else {
        OnwardNot(cx, mode, Here(it));
        NothingYet(mode, fastMode, leaks);
        r := Returned;
      }
    }

    /** Try each edge of the next wanted dependency. */
    method CommitEach(it: nat, from: NodeRef, mode: CheckMode) returns (r: Outcome)
      requires Valid() && it < |cx.deps| && vec != [] && vec[|vec| - 1] == from
      modifies this
      ensures Valid() && Restored() && asserted == old(asserted)
      ensures mode == FAST ==> Untouched() && lookaheadTmp == old(lookaheadTmp)
      ensures Ends(mode, fastMode, CommitsFound(cx, mode, old(Here(it)), |cx.preds(from, DepAt(cx, it).kind)|),
                   old(leaks), leaks, r)
      decreases if mode == SLOW then 1 else 0, |cx.deps| - it + cx.maxTraceback - tracebackDepth, 1
    {
      hide Noted, Visit, CommitsFound, Commit, Ends;
      var es := cx.preds(from, DepAt(cx, it).kind);
      ghost var c := Here(it);
      r := Returned;
      NothingYet(mode, fastMode, leaks);
      NoCommits(cx, mode, c);
      for i := 0 to |es|
        invariant Valid() && Restored() && asserted == old(asserted)
        invariant mode == FAST ==> Untouched() && lookaheadTmp == old(lookaheadTmp)
        invariant r == Returned && Ends(mode, fastMode, CommitsFound(cx, mode, c, i), old(leaks), leaks, r)
      {
        ghost var l1 := leaks;
        r := CommitIfInWindow(it, from, es[i], mode);
        CommitsNext(cx, mode, fastMode, c, i, old(leaks), l1, leaks, r);
        if r != Returned {
          return;
        }
      }
    }

    method CommitIfInWindow(it: nat, from: NodeRef, e: InEdge, mode: CheckMode) returns (r: Outcome)
      requires Valid() && it < |cx.deps| && vec != [] && vec[|vec| - 1] == from
      modifies this
      ensures Valid() && Restored() && asserted == old(asserted)
      ensures mode == FAST ==> Untouched() && lookaheadTmp == old(lookaheadTmp)
      ensures var found :=
              if InWindow(cx, e.src, from) then Visit(cx, mode, Commit(cx, mode, old(Here(it)), e)) else [];
              Ends(mode, fastMode, found, old(leaks), leaks, r)
      decreases if mode == SLOW then 1 else 0, |cx.deps| - it + cx.maxTraceback - tracebackDepth, 0, 1
    {
      hide Noted, Visit, Commit, Ends;
      NothingYet(mode, fastMode, leaks);
      r := Returned;
      if InWindow(cx, e.src, from) {
        r := CommitEdge(it, from, e, mode);
      }
    }

    /** Open a scope and assert a dependency edge and its source's execution in it. */
    method AssertCommit(it: nat, from: NodeRef, e: InEdge, mode: CheckMode)
      requires it < |cx.deps| && vec != [] && vec[|vec| - 1] == from
      modifies this`asserted, this`scopes
      ensures old(asserted) <= asserted && Assertions() == Commit(cx, mode, old(Here(it)), e).cons
      ensures mode == FAST ==> asserted == old(asserted) && scopes == old(scopes)
      ensures mode == SLOW ==> scopes == old(scopes) + [|old(asserted)|]
    {
      hide Noted, EdgeConstraints;
      var d := DepAt(cx, it);
      PushScope(mode);
      if mode == SLOW {
        AssertEdge(d.kind, e, from);
        Add(Executed(e.src, d.mode));
      }
    }

    /** Commit one edge: assert it and its source's execution, and search on from there. */
    method CommitEdge(it: nat, from: NodeRef, e: InEdge, mode: CheckMode) returns (r: Outcome)
      requires Valid() && it < |cx.deps| && vec != [] && vec[|vec| - 1] == from && e.src in cx.window
      modifies this
      ensures Valid() && Restored() && asserted == old(asserted)
      ensures mode == FAST ==> Untouched() && lookaheadTmp == old(lookaheadTmp)
      ensures Ends(mode, fastMode, Visit(cx, mode, Commit(cx, mode, old(Here(it)), e)), old(leaks), leaks, r)
      decreases if mode == SLOW then 1 else 0, |cx.deps| - it + cx.maxTraceback - tracebackDepth, 0, 0
    {
      hide Noted, Visit, EdgeConstraints, Ends;
      var d := DepAt(cx, it);
      ghost var c := Here(it);
      AssertCommit(it, from, e, mode);
      flagEdges := flagEdges + [EdgeRef(e.src, from, d.kind)];
      actions := actions + [Action(e.src, d.kind, from)];
      assert Point(it + 1, vec + [e.src], actions, tracebackDepth, Assertions()) == Commit(cx, mode, c, e);
      r := TracebackDepsRec(it + 1, e.src, mode);
      actions, flagEdges := actions[..|actions| - 1], flagEdges[..|flagEdges| - 1];
      PopScope(mode);
    }

    /** Step back to what the address or the value read by `load` depends on. */
    method Traceback(load: NodeRef, it: nat, mode: CheckMode) returns (r: Outcome)
      requires Valid() && it <= |cx.deps| && vec != [] && vec[|vec| - 1] == load && load in cx.window && load != vec[0]
      modifies this
      ensures Valid() && Restored() && asserted == old(asserted)
      ensures mode == FAST ==> Untouched() && lookaheadTmp == old(lookaheadTmp)
      ensures var c := old(Here(it));
              Ends(mode, fastMode, Onward(cx, mode, c), old(leaks), leaks, r)
      decreases if mode == SLOW then 1 else 0, |cx.deps| - it + cx.maxTraceback - tracebackDepth, 0
    {
      hide Noted, VisitAll, Follows, ViaStores, Onward, Ends;
      ghost var c := Here(it);
      NothingYet(mode, fastMode, leaks);
      if tracebackDepth == cx.maxTraceback {
        OnwardNot(cx, mode, c);
        return Returned;
      }
      var refuted := AssertRead(load, it, mode);
      if refuted {
        OnwardNot(cx, mode, c);
        r := Returned;
      } else {
        r := TraceLoad(load, it, mode, c);
      }
      PopScope(mode);
    }

    /** Open a scope, assert in it that `load` reads, and ask the solver. */
    method AssertRead(load: NodeRef, it: nat, mode: CheckMode) returns (refuted: bool)
      requires vec != [] && vec[|vec| - 1] == load
      modifies this`asserted, this`scopes
      ensures old(asserted) <= asserted && Assertions() == Deeper(mode, old(Here(it))).cons
      ensures mode == FAST ==> asserted == old(asserted) && scopes == old(scopes)
      ensures mode == SLOW ==> scopes == old(scopes) + [|old(asserted)|]
      ensures refuted == Refuted(cx, mode, Assertions())
    {
      PushScope(mode);
      refuted := false;
      if mode == SLOW {
        Add(Reads(load));
        refuted := cx.refuted(Assertions());
      }
    }

    /** Through the stores first, then along address edges, one level deeper. */
    method TraceLoad(load: NodeRef, it: nat, mode: CheckMode, ghost c: Point) returns (r: Outcome)
      requires Valid() && it <= |cx.deps| && vec != [] && load in cx.window && tracebackDepth < cx.maxTraceback
      requires PointOk(cx, c) && load == At(c) != c.vec[0] && !Refuted(cx, mode, Deeper(mode, c).cons)
      requires Here(it).(depth := tracebackDepth + 1) == Deeper(mode, c)
      modifies this
      ensures Valid() && Restored() && asserted == old(asserted)
      ensures mode == FAST ==> Untouched() && lookaheadTmp == old(lookaheadTmp)
      ensures Ends(mode, fastMode, Onward(cx, mode, c), old(leaks), leaks, r)
      decreases if mode == SLOW then 1 else 0, |cx.deps| - it + cx.maxTraceback - tracebackDepth - 1, 8
    {
      hide Noted, VisitAll, Follows, ViaStores, Onward, Ends;
      tracebackDepth := tracebackDepth + 1;
      OnwardSplits(cx, mode, c);
      ghost var d := Here(it);
      r := TracebackRf(load, it, mode);
      ghost var l1, r1 := leaks, r;
      if r == Returned {
        r := TracebackEdge(ADDR, load, it, mode);
      }
      EndsThen(mode, fastMode, VisitAll(cx, mode, Budget(cx, d) + 1, ViaStores(cx, mode, d, load, |cx.stores(load)|)),
               VisitAll(cx, mode, Budget(cx, d) + 1, Follows(cx, mode, d, ADDR, load, |cx.preds(load, ADDR)|)),
                 old(leaks), l1, leaks, r1, r);
      tracebackDepth := tracebackDepth - 1;
    }

    /** Through each store that `load` may read from, to the data stored. */
    method TracebackRf(load: NodeRef, it: nat, mode: CheckMode) returns (r: Outcome)
      requires Valid() && it <= |cx.deps| && vec != [] && load in cx.window
      modifies this
      ensures Valid() && Restored() && asserted == old(asserted)
      ensures mode == FAST ==> Untouched() && lookaheadTmp == old(lookaheadTmp)
      ensures Ends(mode, fastMode, StoresFound(cx, mode, old(Here(it)), load, |cx.stores(load)|), old(leaks), leaks, r)
      decreases if mode == SLOW then 1 else 0, |cx.deps| - it + cx.maxTraceback - tracebackDepth, 7
    {
      hide Noted, StoresFound, StoreFound, Ends;
      var stores := RfSources(load);
      ghost var c := Here(it);
      r := Returned;
      NothingYet(mode, fastMode, leaks);
      NoStores(cx, mode, c, load);
      for i := 0 to |stores|
        invariant Valid() && Restored() && asserted == old(asserted)
        invariant mode == FAST ==> Untouched() && lookaheadTmp == old(lookaheadTmp)
        invariant r == Returned && Ends(mode, fastMode, StoresFound(cx, mode, c, load, i), old(leaks), leaks, r)
      {
        assert load in cx.window;
        ghost var l1 := leaks;
        r := StoreIfInWindow(load, stores[i], it, mode);
        StoresNext(cx, mode, fastMode, c, load, i, old(leaks), l1, leaks, r);
        if r != Returned {
          return;
        }
      }
    }

    method StoreIfInWindow(load: NodeRef, store: NodeRef, it: nat, mode: CheckMode) returns (r: Outcome)
      requires Valid() && it <= |cx.deps| && vec != []
      modifies this
      ensures Valid() && Restored() && asserted == old(asserted)
      ensures mode == FAST ==> Untouched() && lookaheadTmp == old(lookaheadTmp)
      ensures Ends(mode, fastMode, if store in cx.window then StoreFound(cx, mode, old(Here(it)), load, store) else [],
                   old(leaks), leaks, r)
      decreases if mode == SLOW then 1 else 0, |cx.deps| - it + cx.maxTraceback - tracebackDepth, 6, 1
    {
      hide Noted, StoreFound, Ends;
      NothingYet(mode, fastMode, leaks);
      r := Returned;
      if store in cx.window {
        r := TracebackStore(load, store, it, mode);
      }
    }

    /** Through one store: look ahead, then assert that it is read from and follow its data. */
    method TracebackStore(load: NodeRef, store: NodeRef, it: nat, mode: CheckMode) returns (r: Outcome)
      requires Valid() && it <= |cx.deps| && vec != []
      modifies this
      ensures Valid() && Restored() && asserted == old(asserted)
      ensures mode == FAST ==> Untouched() && lookaheadTmp == old(lookaheadTmp)
      ensures Ends(mode, fastMode, StoreFound(cx, mode, old(Here(it)), load, store), old(leaks), leaks, r)
      decreases if mode == SLOW then 1 else 0, |cx.deps| - it + cx.maxTraceback - tracebackDepth, 6, 0
    {
      hide Noted, VisitAll, Follows, Ends;
      ghost var c := Here(it);
      NothingYet(mode, fastMode, leaks);
      if mode == SLOW {
        var go := Lookahead(Data(it, store));
        if !go {
          StorePruned(cx, c, load, store);
          return Returned;
        }
      }
      r := DescendStore(load, store, it, mode);
    }

    /** Assert that `store` is read from, and follow its data. */
    method DescendStore(load: NodeRef, store: NodeRef, it: nat, mode: CheckMode) returns (r: Outcome)
      requires Valid() && it <= |cx.deps| && vec != []
      modifies this
      ensures Valid() && Restored() && asserted == old(asserted)
      ensures mode == FAST ==> Untouched() && lookaheadTmp == old(lookaheadTmp)
      ensures Ends(mode, fastMode, StoreFound(cx, mode, old(Here(it)), load, store), old(leaks), leaks, r)
      decreases if mode == SLOW then 1 else 0, |cx.deps| - it + cx.maxTraceback - tracebackDepth, 5, 1
    {
      hide Noted, FollowsFound, Ends, Assertions;
      ghost var c := Here(it);
      AssertStore(load, store, it, mode);
      actions := actions + [Action(store, RF, load)];
      assert Here(it) == FromStore(mode, c, store, load);
      r := TracebackEdge(DATA, store, it, mode);
      FoundIsStore(cx, mode, c, load, store);
      actions := actions[..|actions| - 1];
      PopScope(mode);
    }

    /** Open a scope and assert in it that `store` executes and is read from. */
    method AssertStore(load: NodeRef, store: NodeRef, it: nat, mode: CheckMode)
      modifies this`asserted, this`scopes
      ensures old(asserted) <= asserted && Assertions() == FromStore(mode, old(Here(it)), store, load).cons
      ensures mode == FAST ==> asserted == old(asserted) && scopes == old(scopes)
      ensures mode == SLOW ==> scopes == old(scopes) + [|old(asserted)|]
    {
      PushScope(mode);
      if mode == SLOW {
        Add(ReadsFrom(store, load));
        Add(Executed(store, EXEC));
        assert {ReadsFrom(store, load)} + {Executed(store, EXEC)} == {ReadsFrom(store, load), Executed(store, EXEC)};
      }
    }

    /** Along each edge of one kind into `node`, and on from its source. */
    method TracebackEdge(kind: Kind, node: NodeRef, it: nat, mode: CheckMode) returns (r: Outcome)
      requires Valid() && it <= |cx.deps| && vec != []
      modifies this
      ensures Valid() && Restored() && asserted == old(asserted)
      ensures mode == FAST ==> Untouched() && lookaheadTmp == old(lookaheadTmp)
      ensures Ends(mode, fastMode, FollowsFound(cx, mode, old(Here(it)), kind, node, |cx.preds(node, kind)|),
                   old(leaks), leaks, r)
      decreases if mode == SLOW then 1 else 0, |cx.deps| - it + cx.maxTraceback - tracebackDepth, 5, 0
    {
      hide Noted, FollowsFound, Visit, Follow, Ends;
      var es := cx.preds(node, kind);
      ghost var c := Here(it);
      r := Returned;
      NothingYet(mode, fastMode, leaks);
      NoFollows(cx, mode, c, kind, node);
      for i := 0 to |es|
        invariant Valid() && Restored() && asserted == old(asserted)
        invariant mode == FAST ==> Untouched() && lookaheadTmp == old(lookaheadTmp)
        invariant r == Returned && Ends(mode, fastMode, FollowsFound(cx, mode, c, kind, node, i), old(leaks), leaks, r)
      {
        ghost var l1 := leaks;
        r := FollowIfInWindow(kind, node, es[i], it, mode);
        FollowsNext(cx, mode, fastMode, c, kind, node, i, old(leaks), l1, leaks, r);
        if r != Returned {
          return;
        }
      }
    }

    method FollowIfInWindow(kind: Kind, node: NodeRef, e: InEdge, it: nat, mode: CheckMode) returns (r: Outcome)
      requires Valid() && it <= |cx.deps| && vec != []
      modifies this
      ensures Valid() && Restored() && asserted == old(asserted)
      ensures mode == FAST ==> Untouched() && lookaheadTmp == old(lookaheadTmp)
      ensures var found :=
              if InWindow(cx, e.src, node) then Visit(cx, mode, Follow(cx, mode, old(Here(it)), kind, node, e)) else [];
              Ends(mode, fastMode, found, old(leaks), leaks, r)
      decreases if mode == SLOW then 1 else 0, |cx.deps| - it + cx.maxTraceback - tracebackDepth, 4, 1
    {
      hide Noted, Visit, Follow, Ends;
      NothingYet(mode, fastMode, leaks);
      r := Returned;
      if InWindow(cx, e.src, node) {
        r := FollowEdge(kind, node, e, it, mode);
      }
    }

    /** Along one edge: assert it, look ahead, and search on from its source. */
    method FollowEdge(kind: Kind, node: NodeRef, e: InEdge, it: nat, mode: CheckMode) returns (r: Outcome)
      requires Valid() && it <= |cx.deps| && vec != [] && e.src in cx.window
      modifies this
      ensures Valid() && Restored() && asserted == old(asserted)
      ensures mode == FAST ==> Untouched() && lookaheadTmp == old(lookaheadTmp)
      ensures var c := old(Here(it));
              Ends(mode, fastMode, Visit(cx, mode, Follow(cx, mode, c, kind, node, e)), old(leaks), leaks, r)
      decreases if mode == SLOW then 1 else 0, |cx.deps| - it + cx.maxTraceback - tracebackDepth, 4, 0
    {
      hide Noted, Visit, Ends, EdgeConstraints;
      ghost var c := Here(it);
      NothingYet(mode, fastMode, leaks);
      PushScope(mode);
      if mode == SLOW {
        AssertEdge(kind, e, node);
      }
      actions := actions + [Action(e.src, kind, node)];
      r := Returned;
      var go := true;
      if mode == SLOW {
        go := Lookahead(Deps(it, e.src));
      }
      assert Point(it, vec + [e.src], actions, tracebackDepth, Assertions()) == Follow(cx, mode, c, kind, node, e);
      if go {
        r := TracebackDepsRec(it, e.src, mode);
      } else {
        EdgePruned(cx, c, kind, node, e, Follow(cx, mode, c, kind, node, e));
      }
      actions := actions[..|actions| - 1];
      PopScope(mode);
    }
  }
}
