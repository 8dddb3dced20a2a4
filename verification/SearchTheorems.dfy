/** What the backward search reports: lookahead never hides a leak, and the leaks
    are exactly the satisfiable chains of the target language. */
module SearchTheorems {
  import opened SearchSpec

  // ---------------------------------------------------------------- lists of points

  lemma {:induction false} VisitAllConcat(cx: Search, mode: CheckMode, b: nat, ps: seq<Point>, qs: seq<Point>)
    requires Below(cx, b, ps) && Below(cx, b, qs)
    ensures Below(cx, b, ps + qs)
    ensures VisitAll(cx, mode, b, ps + qs) == VisitAll(cx, mode, b, ps) + VisitAll(cx, mode, b, qs)
    decreases |qs|
  {
    hide Visit, PointOk;
    if qs == [] {
      assert ps + qs == ps;
    } else {
      var init, all := qs[..|qs| - 1], ps + qs;
      VisitAllConcat(cx, mode, b, ps, init);
      assert all[..|all| - 1] == ps + init && all[|all| - 1] == qs[|qs| - 1];
    }
  }

  lemma {:induction false} VisitAllHas(cx: Search, mode: CheckMode, b: nat, ps: seq<Point>, leak: Leak)
    requires Below(cx, b, ps)
    ensures leak in VisitAll(cx, mode, b, ps) <==> exists p :: p in ps && leak in Visit(cx, mode, p)
    decreases |ps|
  {
    if ps != [] {
      var init, last := ps[..|ps| - 1], ps[|ps| - 1];
      VisitAllHas(cx, mode, b, init, leak);
      assert ps == init + [last];
      if leak in VisitAll(cx, mode, b, init) {
        var p :| p in init && leak in Visit(cx, mode, p);
        assert p in ps;
      }
      if p :| p in ps && leak in Visit(cx, mode, p) {
        assert p in init || p == last;
      }
    }
  }

  // ---------------------------------------------------------------- lookahead

  /** Points that the lookahead cannot tell apart. */
  ghost predicate Alike(c: Point, c': Point) {
    && c.it == c'.it && c.depth == c'.depth && |c.vec| > 0 && |c'.vec| > 0
    && c.vec[0] == c'.vec[0] && At(c) == At(c')
  }

  /** Where the leaf check reports something, lookahead counts on it, at this point and at every point that
      it cannot tell apart from it. */
  ghost predicate LeafLaw(cx: Search) {
    forall c: Point, c': Point :: Alike(c, c') && Leaf(cx, SLOW, c) != [] ==> Leaf(cx, FAST, c') != []
  }

  /** The Spectre v1 check only looks at the current node. */
  lemma SpectreV1Lawful(cx: Search)
    requires cx.leaf.SpectreV1?
    ensures LeafLaw(cx)
  {
  }

  ghost predicate LawAtSamePoint(cx: Search) {
    forall c: Point :: |c.vec| > 0 && Leaf(cx, SLOW, c) != [] ==> Leaf(cx, FAST, c) != []
  }

  /** Agreement at the same point is not enough: lookahead from a point sees the current node twice, and a
      check that minds the number of nodes is then not found although it reports. */
  lemma SamePointNotEnough() returns (cx: Search, c: Point)
    ensures LawAtSamePoint(cx) && PointOk(cx, c)
    ensures Visit(cx, SLOW, c) != [] && Visit(cx, FAST, c.(vec := c.vec + [At(c)])) == []
  {
    var leaf := OtherLeaf((p: Point) => |p.vec| == 1,
                          (p: Point) => if |p.vec| == 1 then [LeakAt(p)] else [],
                          (p: Point) => []);
    cx := Search((_, _) => [], _ => [], {}, (_, _) => [], [], 0, leaf, _ => false, _ => false);
    c := Point(0, [0], [], 0, {});
    var c' := c.(vec := [0, 0]);
    assert c.vec + [At(c)] == [0, 0];
    assert Leaf(cx, FAST, c') == [] && Leaf(cx, SLOW, c) != [];
  }

  ghost predicate AllAlike(ps: seq<Point>, ps': seq<Point>) {
    |ps| == |ps'| && forall i :: 0 <= i < |ps| ==> Alike(ps[i], ps'[i])
  }

  lemma {:induction false} CommitsAlike(cx: Search, c: Point, c': Point, n: nat)
    requires PointOk(cx, c) && PointOk(cx, c') && Alike(c, c')
    requires c.it < |cx.deps| && n <= |cx.preds(At(c), DepAt(cx, c.it).kind)|
    ensures AllAlike(Commits(cx, SLOW, c, n), Commits(cx, FAST, c', n))
  {
    if n > 0 {
      CommitsAlike(cx, c, c', n - 1);
    }
  }

  lemma {:induction false} FollowsAlike(cx: Search, c: Point, c': Point, kind: Kind, node: NodeRef, n: nat)
    requires PointOk(cx, c) && PointOk(cx, c') && Alike(c, c') && n <= |cx.preds(node, kind)|
    ensures AllAlike(Follows(cx, SLOW, c, kind, node, n), Follows(cx, FAST, c', kind, node, n))
  {
    if n > 0 {
      FollowsAlike(cx, c, c', kind, node, n - 1);
    }
  }

  lemma {:induction false} ViaStoresAlike(cx: Search, c: Point, c': Point, load: NodeRef, n: nat)
    requires PointOk(cx, c) && PointOk(cx, c') && Alike(c, c') && n <= |cx.stores(load)|
    ensures AllAlike(ViaStores(cx, SLOW, c, load, n), ViaStores(cx, FAST, c', load, n))
  {
    if n > 0 {
      ViaStoresAlike(cx, c, c', load, n - 1);
      var store := cx.stores(load)[n - 1];
      FollowsAlike(cx, FromStore(SLOW, c, store, load), FromStore(FAST, c', store, load), DATA, store,
                   |cx.preds(store, DATA)|);
    }
  }

  lemma TracebacksAlike(cx: Search, c: Point, c': Point)
    requires PointOk(cx, c) && PointOk(cx, c') && Alike(c, c') && c.depth < cx.maxTraceback
    ensures AllAlike(Tracebacks(cx, SLOW, c), Tracebacks(cx, FAST, c'))
  {
    var load := At(c);
    ViaStoresAlike(cx, Deeper(SLOW, c), Deeper(FAST, c'), load, |cx.stores(load)|);
    FollowsAlike(cx, Deeper(SLOW, c), Deeper(FAST, c'), ADDR, load, |cx.preds(load, ADDR)|);
  }

  /** If the search with the solver reports anything from a point, the search
      without finds something from every point that looks alike, for any lawful leaf check. */
  lemma {:induction false} LookaheadComplete(cx: Search, c: Point, c': Point)
    requires LeafLaw(cx) && PointOk(cx, c) && PointOk(cx, c') && Alike(c, c') && Visit(cx, SLOW, c) != []
    ensures Visit(cx, FAST, c') != []
    decreases Budget(cx, c), 1, 0
  {
    hide Commits, Tracebacks, Onward, VisitAll, Leaf;
    if c.it == |cx.deps| {
      if Leaf(cx, SLOW, c) == [] {
        OnwardComplete(cx, AfterLeaf(cx, SLOW, c), AfterLeaf(cx, FAST, c'));
      }
    } else {
      var n := |cx.preds(At(c), DepAt(cx, c.it).kind)|;
      if Onward(cx, SLOW, c) != [] {
        OnwardComplete(cx, c, c');
      } else {
        CommitsAlike(cx, c, c', n);
        AllComplete(cx, Budget(cx, c), Commits(cx, SLOW, c, n), Commits(cx, FAST, c', n));
      }
    }
  }

  lemma {:induction false} OnwardComplete(cx: Search, c: Point, c': Point)
    requires LeafLaw(cx) && PointOk(cx, c) && PointOk(cx, c') && Alike(c, c') && Onward(cx, SLOW, c) != []
    ensures Onward(cx, FAST, c') != []
    decreases Budget(cx, c), 0, 1
  {
    hide Tracebacks, VisitAll, LeafLaw;
    TracebacksAlike(cx, c, c');
    AllComplete(cx, Budget(cx, c), Tracebacks(cx, SLOW, c), Tracebacks(cx, FAST, c'));
  }

  lemma {:induction false} AllComplete(cx: Search, b: nat, ps: seq<Point>, ps': seq<Point>)
    requires LeafLaw(cx) && Below(cx, b, ps) && Below(cx, b, ps') && AllAlike(ps, ps')
    requires VisitAll(cx, SLOW, b, ps) != []
    ensures VisitAll(cx, FAST, b, ps') != []
    decreases b, 0, 0, |ps|
  {
    hide LeafLaw;
    var m := |ps| - 1;
    if Visit(cx, SLOW, ps[m]) != [] {
      LookaheadComplete(cx, ps[m], ps'[m]);
    } else {
      AllComplete(cx, b, ps[..m], ps'[..m]);
    }
  }

  // ---------------------------------------------------------------- steps of the search

  /** One step back: a wanted dependency, an address dependency, or the data of a
      store that the current node may read from. */
  datatype Step = Dependency(kind: Kind, e: InEdge) | Address(e: InEdge) | StoreData(store: NodeRef, e: InEdge)

  ghost predicate Enabled(cx: Search, c: Point, s: Step)
    requires PointOk(cx, c)
  {
    match s
    case Dependency(kind, e) =>
      && c.it < |cx.deps| && kind == DepAt(cx, c.it).kind
      && e in cx.preds(At(c), kind) && InWindow(cx, e.src, At(c))
    case Address(e) =>
      && At(c) != c.vec[0] && c.depth < cx.maxTraceback
      && e in cx.preds(At(c), ADDR) && InWindow(cx, e.src, At(c))
    case StoreData(store, e) =>
      && At(c) != c.vec[0] && c.depth < cx.maxTraceback
      && store in cx.stores(At(c)) && store in cx.window
      && e in cx.preds(store, DATA) && InWindow(cx, e.src, store)
  }

  ghost function Take(cx: Search, c: Point, s: Step): (p: Point)
    requires PointOk(cx, c) && Enabled(cx, c, s)
    ensures PointOk(cx, p) && Budget(cx, p) < Budget(cx, c)
  {
    match s
    case Dependency(_, e) => Commit(cx, SLOW, c, e)
    case Address(e) => Follow(cx, SLOW, Deeper(SLOW, c), ADDR, At(c), e)
    case StoreData(store, e) => Follow(cx, SLOW, FromStore(SLOW, Deeper(SLOW, c), store, At(c)), DATA, store, e)
  }

  lemma {:induction false} CommitsHas(cx: Search, c: Point, n: nat, p: Point)
    requires PointOk(cx, c) && c.it < |cx.deps| && n <= |cx.preds(At(c), DepAt(cx, c.it).kind)|
    ensures var es := cx.preds(At(c), DepAt(cx, c.it).kind);
            p in Commits(cx, SLOW, c, n) <==>
              exists e :: e in es[..n] && InWindow(cx, e.src, At(c)) && p == Commit(cx, SLOW, c, e)
  {
    hide InWindow, Commit;
    if n > 0 {
      CommitsHas(cx, c, n - 1, p);
      var es := cx.preds(At(c), DepAt(cx, c.it).kind);
      assert es[..n] == es[..n - 1] + [es[n - 1]];
    }
  }

  lemma {:induction false} FollowsHas(cx: Search, c: Point, kind: Kind, node: NodeRef, n: nat, p: Point)
    requires PointOk(cx, c) && n <= |cx.preds(node, kind)|
    ensures p in Follows(cx, SLOW, c, kind, node, n) <==>
            exists e ::
                e in cx.preds(node, kind)[..n] && InWindow(cx, e.src, node) && p == Follow(cx, SLOW, c, kind, node, e)
  {
    if n > 0 {
      FollowsHas(cx, c, kind, node, n - 1, p);
      var es := cx.preds(node, kind);
      assert es[..n] == es[..n - 1] + [es[n - 1]];
    }
  }

  ghost predicate DataOf(cx: Search, c: Point, load: NodeRef, store: NodeRef, p: Point)
    requires PointOk(cx, c)
  {
    store in cx.window && p in Follows(cx, SLOW, FromStore(SLOW, c, store, load), DATA, store, |cx.preds(store, DATA)|)
  }

  lemma {:induction false} ViaStoresHas(cx: Search, c: Point, load: NodeRef, n: nat, p: Point)
    requires PointOk(cx, c) && n <= |cx.stores(load)|
    ensures p in ViaStores(cx, SLOW, c, load, n) <==>
            exists store :: store in cx.stores(load)[..n] && DataOf(cx, c, load, store, p)
  {
    hide Follows, FromStore;
    if n > 0 {
      ViaStoresHas(cx, c, load, n - 1, p);
      var stores := cx.stores(load);
      assert stores[..n] == stores[..n - 1] + [stores[n - 1]];
      if p in ViaStores(cx, SLOW, c, load, n - 1) {
        var store :| store in stores[..n - 1] && DataOf(cx, c, load, store, p);
        assert store in stores[..n];
      } else if p in ViaStores(cx, SLOW, c, load, n) {
        assert DataOf(cx, c, load, stores[n - 1], p);
        assert stores[n - 1] in stores[..n];
      }
      if store :| store in stores[..n] && DataOf(cx, c, load, store, p) {
        assert store in stores[..n - 1] || store == stores[n - 1];
      }
    }
  }

  /** The listed points are exactly those one enabled step away. */
  lemma CommitsAreSteps(cx: Search, c: Point, p: Point)
    requires PointOk(cx, c) && c.it < |cx.deps|
    ensures p in Commits(cx, SLOW, c, |cx.preds(At(c), DepAt(cx, c.it).kind)|) <==>
            exists s: Step :: s.Dependency? && Enabled(cx, c, s) && p == Take(cx, c, s)
  {
    var kind := DepAt(cx, c.it).kind;
    var es := cx.preds(At(c), kind);
    assert es[..|es|] == es;
    CommitsHas(cx, c, |es|, p);
    if e :| e in es && InWindow(cx, e.src, At(c)) && p == Commit(cx, SLOW, c, e) {
      var s := Dependency(kind, e);
      assert Enabled(cx, c, s) && p == Take(cx, c, s);
    }
  }

  lemma TracebacksAreSteps(cx: Search, c: Point, p: Point)
    requires PointOk(cx, c) && c.depth < cx.maxTraceback && At(c) != c.vec[0]
    ensures p in Tracebacks(cx, SLOW, c) <==>
            exists s: Step :: !s.Dependency? && Enabled(cx, c, s) && p == Take(cx, c, s)
  {
    var load, d := At(c), Deeper(SLOW, c);
    var es, stores := cx.preds(load, ADDR), cx.stores(load);
    assert es[..|es|] == es && stores[..|stores|] == stores;
    FollowsHas(cx, d, ADDR, load, |es|, p);
    ViaStoresHas(cx, d, load, |stores|, p);
    if p in Follows(cx, SLOW, d, ADDR, load, |es|) {
      var e :| e in es && InWindow(cx, e.src, load) && p == Follow(cx, SLOW, d, ADDR, load, e);
      assert Enabled(cx, c, Address(e)) && p == Take(cx, c, Address(e));
    }
    if p in ViaStores(cx, SLOW, d, load, |stores|) {
      var store :| store in stores && DataOf(cx, d, load, store, p);
      StoreStep(cx, c, store, p);
    }
    if s: Step :| !s.Dependency? && Enabled(cx, c, s) && p == Take(cx, c, s) {
      if s.StoreData? {
        var es' := cx.preds(s.store, DATA);
        assert es'[..|es'|] == es';
        FollowsHas(cx, FromStore(SLOW, d, s.store, load), DATA, s.store, |es'|, p);
        assert DataOf(cx, d, load, s.store, p);
      }
    }
  }

  lemma StoreStep(cx: Search, c: Point, store: NodeRef, p: Point)
    requires PointOk(cx, c) && c.depth < cx.maxTraceback && At(c) != c.vec[0]
    requires store in cx.stores(At(c)) && DataOf(cx, Deeper(SLOW, c), At(c), store, p)
    ensures exists s: Step :: !s.Dependency? && Enabled(cx, c, s) && p == Take(cx, c, s)
  {
    var es, d := cx.preds(store, DATA), FromStore(SLOW, Deeper(SLOW, c), store, At(c));
    assert es[..|es|] == es;
    FollowsHas(cx, d, DATA, store, |es|, p);
    var e :| e in es && InWindow(cx, e.src, store) && p == Follow(cx, SLOW, d, DATA, store, e);
    var s := StoreData(store, e);
    assert Enabled(cx, c, s) && p == Take(cx, c, s);
  }

  // ---------------------------------------------------------------- walks

  ghost predicate WalkOk(cx: Search, c: Point, ss: seq<Step>)
    requires PointOk(cx, c)
    decreases |ss|
  {
    ss != [] ==> Enabled(cx, c, ss[0]) && WalkOk(cx, Take(cx, c, ss[0]), ss[1..])
  }

  ghost function Walk(cx: Search, c: Point, ss: seq<Step>): (p: Point)
    requires PointOk(cx, c) && WalkOk(cx, c, ss)
    ensures PointOk(cx, p)
    decreases |ss|
  {
    if ss == [] then c else Walk(cx, Take(cx, c, ss[0]), ss[1..])
  }

  /** The walk ends where the leaf check accepts and the solver does not refute it. */
  ghost predicate Reports(cx: Search, c: Point, ss: seq<Step>, leak: Leak)
    requires PointOk(cx, c)
  {
    && WalkOk(cx, c, ss)
    && var p := Walk(cx, c, ss);
       p.it == |cx.deps| && Accepted(cx, p) && !cx.unsat(p.cons + LeafConstraints(cx)) && leak == LeakAt(p)
  }

  /** The same point, but for the constraint that leaf checks leave behind. */
  ghost predicate Similar(cx: Search, c: Point, d: Point) {
    && c.it == d.it && c.vec == d.vec && c.actions == d.actions && c.depth == d.depth
    && c.cons <= d.cons <= c.cons + LeafConstraints(cx)
  }

  lemma SimilarSteps(cx: Search, c: Point, d: Point, s: Step)
    requires PointOk(cx, c) && PointOk(cx, d) && Similar(cx, c, d)
    ensures Enabled(cx, c, s) <==> Enabled(cx, d, s)
    ensures Enabled(cx, c, s) ==> Similar(cx, Take(cx, c, s), Take(cx, d, s))
  {
  }

  /** Whatever the solver answers, a reported leak is an accepted and unrefuted walk. */
  lemma {:induction false} OnlyWalks(cx: Search, c: Point, d: Point, leak: Leak) returns (ss: seq<Step>)
    requires cx.leaf.SpectreV1? && PointOk(cx, c) && PointOk(cx, d) && Similar(cx, c, d) && leak in Visit(cx, SLOW, d)
    ensures Reports(cx, c, ss, leak)
    decreases Budget(cx, c), 1
  {
    hide Commits, VisitAll, Enabled, Take, Onward;
    if c.it == |cx.deps| && leak in Leaf(cx, SLOW, d) {
      assert d.cons + LeafConstraints(cx) == c.cons + LeafConstraints(cx);
      ss := [];
    } else if c.it < |cx.deps| && leak !in Onward(cx, SLOW, d) {
      var ps := Commits(cx, SLOW, d, |cx.preds(At(d), DepAt(cx, d.it).kind)|);
      VisitAllHas(cx, SLOW, Budget(cx, d), ps, leak);
      var p :| p in ps && leak in Visit(cx, SLOW, p);
      CommitsAreSteps(cx, d, p);
      var s: Step :| s.Dependency? && Enabled(cx, d, s) && p == Take(cx, d, s);
      SimilarSteps(cx, c, d, s);
      var rest := OnlyWalks(cx, Take(cx, c, s), p, leak);
      ss := [s] + rest;
      assert ss[1..] == rest;
    } else {
      ss := OnlyOnward(cx, c, if c.it == |cx.deps| then AfterLeaf(cx, SLOW, d) else d, leak);
    }
  }

  lemma {:induction false} OnlyOnward(cx: Search, c: Point, d: Point, leak: Leak) returns (ss: seq<Step>)
    requires cx.leaf.SpectreV1? && PointOk(cx, c) && PointOk(cx, d) && Similar(cx, c, d) && leak in Onward(cx, SLOW, d)
    ensures Reports(cx, c, ss, leak)
    decreases Budget(cx, c), 0
  {
    VisitAllHas(cx, SLOW, Budget(cx, d), Tracebacks(cx, SLOW, d), leak);
    var p :| p in Tracebacks(cx, SLOW, d) && leak in Visit(cx, SLOW, p);
    TracebacksAreSteps(cx, d, p);
    var s: Step :| !s.Dependency? && Enabled(cx, d, s) && p == Take(cx, d, s);
    SimilarSteps(cx, c, d, s);
    var rest := OnlyWalks(cx, Take(cx, c, s), p, leak);
    ss := [s] + rest;
    assert ss[1..] == rest;
  }

  /** Adding a constraint never turns unsat into sat, and a time limit never adds an answer unsat. */
  ghost predicate Monotone(cx: Search) {
    && (forall C :: cx.refuted(C) ==> cx.unsat(C))
    && (forall C, D :: C <= D && cx.unsat(C) ==> cx.unsat(D))
  }

  lemma {:induction false} WalkGrows(cx: Search, c: Point, ss: seq<Step>)
    requires PointOk(cx, c) && WalkOk(cx, c, ss)
    ensures c.cons <= Walk(cx, c, ss).cons
    ensures ss != [] && !ss[0].Dependency? ==> Deeper(SLOW, c).cons <= Walk(cx, c, ss).cons
    decreases |ss|
  {
    if ss != [] {
      WalkGrows(cx, Take(cx, c, ss[0]), ss[1..]);
    }
  }

  /** With a monotone solver every accepted and unrefuted walk is reported. */
  lemma {:induction false} AllWalks(cx: Search, c: Point, d: Point, ss: seq<Step>, leak: Leak)
    requires cx.leaf.SpectreV1? && PointOk(cx, c) && PointOk(cx, d) && Similar(cx, c, d)
    requires Monotone(cx) && Reports(cx, c, ss, leak)
    ensures leak in Visit(cx, SLOW, d)
    decreases |ss|
  {
    hide Commits, Tracebacks, Take, VisitAll;
    WalkGrows(cx, c, ss);
    Unrefuted(cx, Walk(cx, c, ss).cons, d.cons);
    if ss == [] {
      Unrefuted(cx, c.cons, d.cons + LeafConstraints(cx));
      assert leak in Leaf(cx, SLOW, d);
    } else {
      var s := ss[0];
      SimilarSteps(cx, c, d, s);
      if s.Dependency? {
        AllWalks(cx, Take(cx, c, s), Take(cx, d, s), ss[1..], leak);
        CommitsAreSteps(cx, d, Take(cx, d, s));
        var ps := Commits(cx, SLOW, d, |cx.preds(At(d), DepAt(cx, d.it).kind)|);
        VisitAllHas(cx, SLOW, Budget(cx, d), ps, leak);
      } else {
        var d' := if d.it == |cx.deps| then AfterLeaf(cx, SLOW, d) else d;
        SimilarSteps(cx, c, d', s);
        AllWalks(cx, Take(cx, c, s), Take(cx, d', s), ss[1..], leak);
        Unrefuted(cx, Walk(cx, c, ss).cons, Deeper(SLOW, d').cons);
        TracebacksAreSteps(cx, d', Take(cx, d', s));
        VisitAllHas(cx, SLOW, Budget(cx, d'), Tracebacks(cx, SLOW, d'), leak);
        assert leak in Onward(cx, SLOW, d');
      }
    }
  }

  lemma Unrefuted(cx: Search, C: set<Constraint>, D: set<Constraint>)
    requires Monotone(cx) && D <= C + LeafConstraints(cx) && !cx.unsat(C + LeafConstraints(cx))
    ensures !cx.unsat(D) && !cx.refuted(D)
  {
  }
}
