/** The order of accesses to hardware state, and the communication relations it
    induces, under one assignment. */
module XState {

  type NodeRef = nat

  datatype Kind = Entry | Exit | Regular

  /** A regular node that may access state has a state and a place in the order. */
  datatype Node = Node(kind: Kind, arch: bool, trans: bool, xsread: bool, xswrite: bool, mayAccess: bool, xstate: int,
                       order: int)

  datatype Events = Events(nodes: seq<Node>, entry: NodeRef, exits: set<NodeRef>)

  predicate Exec(g: Events, x: NodeRef)
    requires x < |g.nodes|
  {
    g.nodes[x].arch || g.nodes[x].trans
  }

  ghost predicate NodeOk(g: Events, x: NodeRef)
    requires x < |g.nodes|
  {
    var n := g.nodes[x];
    && (n.kind == Entry <==> x == g.entry)
    && (n.kind == Exit <==> x in g.exits)
    && (n.kind == Entry ==> n.xswrite && !n.xsread && n.arch)
    && (n.kind == Exit ==> n.xsread && !n.xswrite)
    && (n.kind == Regular && !n.mayAccess ==> !n.xsread && !n.xswrite)
  }

  /** What the instruction kinds guarantee. */
  ghost predicate WellFormed(g: Events) {
    && g.entry < |g.nodes|
    && (forall x: nat :: x < |g.nodes| ==> NodeOk(g, x))
  }

  predicate IsEntry(g: Events, x: NodeRef) {
    x == g.entry
  }

  predicate IsExit(g: Events, x: NodeRef) {
    x in g.exits
  }

  /** The order of accesses: by the assigned order, equal places by reference; the entry first, exits last. */
  predicate Less(g: Events, a: NodeRef, b: NodeRef)
    requires a < |g.nodes| && b < |g.nodes|
  {
    if a == b then false
    else if IsEntry(g, a) && IsEntry(g, b) then false
    else if IsEntry(g, a) && IsExit(g, b) then true
    else if IsExit(g, a) && IsEntry(g, b) then false
    else if IsExit(g, a) && IsExit(g, b) then a < b
    else if IsEntry(g, a) then true
    else if IsEntry(g, b) then false
    else if IsExit(g, a) then false
    else if IsExit(g, b) then true
    else if a < b then g.nodes[a].order <= g.nodes[b].order
    else g.nodes[a].order < g.nodes[b].order
  }

  /** A strict total order with the entry first and the exits last. */
  lemma LessIsOrder(g: Events, a: NodeRef, b: NodeRef, c: NodeRef)
    requires WellFormed(g) && a < |g.nodes| && b < |g.nodes| && c < |g.nodes|
    ensures !Less(g, a, a)
    ensures a != b ==> (Less(g, a, b) <==> !Less(g, b, a))
    ensures Less(g, a, b) && Less(g, b, c) ==> Less(g, a, c)
    ensures a != g.entry ==> Less(g, g.entry, a)
    ensures a in g.exits && b !in g.exits ==> Less(g, b, a)
  {
    assert NodeOk(g, a) && NodeOk(g, b) && NodeOk(g, c) && NodeOk(g, g.entry);
  }

  /** The assigned order, equal places by reference. */
  ghost predicate Ordered(g: Events, a: NodeRef, b: NodeRef)
    requires a < |g.nodes| && b < |g.nodes|
  {
    g.nodes[a].order < g.nodes[b].order || (g.nodes[a].order == g.nodes[b].order && a < b)
  }

  ghost function Stage(n: Node): nat {
    match n.kind
    case Entry => 0
    case Regular => 1
    case Exit => 2
  }

  /** What the order is meant to be: the entry, the ordinary nodes by their assigned order, the exits. */
  ghost predicate Sooner(g: Events, a: NodeRef, b: NodeRef)
    requires a < |g.nodes| && b < |g.nodes|
  {
    || Stage(g.nodes[a]) < Stage(g.nodes[b])
    || (g.nodes[a].kind == g.nodes[b].kind == Regular && Ordered(g, a, b))
    || (g.nodes[a].kind == g.nodes[b].kind == Exit && a < b)
  }

  /** Two ordinary nodes are ordered as their assigned places are, and by reference at the same place. */
  lemma LessIsSooner(g: Events, a: NodeRef, b: NodeRef)
    requires WellFormed(g) && a < |g.nodes| && b < |g.nodes|
    ensures Less(g, a, b) <==> Sooner(g, a, b)
  {
    assert NodeOk(g, a) && NodeOk(g, b);
  }

  predicate SameXState(g: Events, a: NodeRef, b: NodeRef)
    requires a < |g.nodes| && b < |g.nodes|
  {
    if g.nodes[a].kind != Regular || g.nodes[b].kind != Regular then true
    else if !g.nodes[a].mayAccess || !g.nodes[b].mayAccess then false
    else g.nodes[a].xstate == g.nodes[b].xstate
  }

  datatype Access = XSREAD | XSWRITE

  predicate Accesses(n: Node, kind: Access) {
    if kind == XSREAD then n.xsread else n.xswrite
  }

  predicate Precond(g: Events, src: NodeRef, dst: NodeRef, srcKind: Access, dstKind: Access)
    requires src < |g.nodes| && dst < |g.nodes|
  {
    Accesses(g.nodes[src], srcKind) && Accesses(g.nodes[dst], dstKind) && Exec(g, src) && Exec(g, dst) &&
      SameXState(g, src, dst)
  }

  predicate Cox(g: Events, src: NodeRef, dst: NodeRef)
    requires src < |g.nodes| && dst < |g.nodes|
  {
    Precond(g, src, dst, XSWRITE, XSWRITE) && Less(g, src, dst)
  }

  predicate Frx(g: Events, src: NodeRef, dst: NodeRef)
    requires src < |g.nodes| && dst < |g.nodes|
  {
    Precond(g, src, dst, XSREAD, XSWRITE) && Less(g, src, dst)
  }

  /** `x` writes the state that both have, between them. */
  predicate Intervenes(g: Events, src: NodeRef, dst: NodeRef, x: NodeRef)
    requires src < |g.nodes| && dst < |g.nodes| && x < |g.nodes|
  {
    g.nodes[x].xswrite && Exec(g, x) && SameXState(g, x, src) && SameXState(g, x, dst) && Less(g, src, x) &&
      Less(g, x, dst)
  }

  ghost predicate Rfx(g: Events, src: NodeRef, dst: NodeRef)
    requires src < |g.nodes| && dst < |g.nodes|
  {
    if g.nodes[src].kind == Entry && g.nodes[dst].kind == Exit then Exec(g, src) && Exec(g, dst)
    else
      && Precond(g, src, dst, XSWRITE, XSREAD)
      && Less(g, src, dst)
      && forall x: nat :: x < |g.nodes| ==> !Intervenes(g, src, dst, x)
  }

  /** Both access the same state; the entry and the exits access every state. */
  ghost predicate Touch(g: Events, a: NodeRef, b: NodeRef)
    requires a < |g.nodes| && b < |g.nodes|
  {
    var m, n := g.nodes[a], g.nodes[b];
    m.kind != Regular || n.kind != Regular || (m.mayAccess && n.mayAccess && m.xstate == n.xstate)
  }

  /** `x` is executed, architecturally or transiently, and writes its state. */
  ghost predicate WritesState(g: Events, x: NodeRef)
    requires x < |g.nodes|
  {
    g.nodes[x].xswrite && (g.nodes[x].arch || g.nodes[x].trans)
  }

  /** What reading from means: `src` writes what `dst` reads, earlier, and no write of that state is in between. */
  ghost predicate LastWriter(g: Events, src: NodeRef, dst: NodeRef)
    requires src < |g.nodes| && dst < |g.nodes|
  {
    if g.nodes[src].kind == Entry && g.nodes[dst].kind == Exit then
      (g.nodes[src].arch || g.nodes[src].trans) && (g.nodes[dst].arch || g.nodes[dst].trans)
    else
      && WritesState(g, src) && g.nodes[dst].xsread && (g.nodes[dst].arch || g.nodes[dst].trans)
      && Touch(g, src, dst) && Sooner(g, src, dst)
      && forall x: nat :: x < |g.nodes| && WritesState(g, x) && Touch(g, x, src) && Touch(g, x, dst) ==>
           !(Sooner(g, src, x) && Sooner(g, x, dst))
  }

  lemma RfxIsLastWriter(g: Events, src: NodeRef, dst: NodeRef)
    requires WellFormed(g) && src < |g.nodes| && dst < |g.nodes|
    ensures Rfx(g, src, dst) <==> LastWriter(g, src, dst)
  {
    hide Less, Sooner, WellFormed;
    LessIsSooner(g, src, dst);
    forall x: nat | x < |g.nodes|
      ensures Intervenes(g, src, dst, x) <==>
              WritesState(g, x) && Touch(g, x, src) && Touch(g, x, dst) && Sooner(g, src, x) && Sooner(g, x, dst)
    {
      LessIsSooner(g, src, x);
      LessIsSooner(g, x, dst);
    }
  }

  /** The encoding that collects intervening writes. */
  method RfxExists(g: Events, src: NodeRef, dst: NodeRef) returns (b: bool)
    requires src < |g.nodes| && dst < |g.nodes|
    ensures b == Rfx(g, src, dst)
    ensures WellFormed(g) ==> (b <==> LastWriter(g, src, dst))
  {
    hide LastWriter, WellFormed;
    if WellFormed(g) {
      RfxIsLastWriter(g, src, dst);
    }
    if g.nodes[src].kind == Entry && g.nodes[dst].kind == Exit {
      return Exec(g, src) && Exec(g, dst);
    }
    if !Precond(g, src, dst, XSWRITE, XSREAD) {
      return false;
    }
    var intervening := false;
    for ref := 0 to |g.nodes|
      invariant intervening <==> exists x: nat :: x < ref && Intervenes(g, src, dst, x)
    {
      ghost var here := Intervenes(g, src, dst, ref);
      assert here ==> exists x: nat :: x < ref + 1 && Intervenes(g, src, dst, x);
      assert (exists x: nat :: x < ref + 1 && Intervenes(g, src, dst, x)) <==> intervening || here;
      if !g.nodes[ref].xswrite {
        continue;
      }
      intervening :=
        intervening ||
          (Exec(g, ref) && SameXState(g, ref, src) && SameXState(g, ref, dst) && Less(g, src, ref) &&
           Less(g, ref, dst));
    }
    return Less(g, src, dst) && !intervening;
  }

  // ---------------------------------------------------------------- sources

  /** `w` could be the source of `r`. */
  ghost predicate Before(g: Events, r: NodeRef, w: NodeRef)
    requires r < |g.nodes| && w < |g.nodes|
  {
    g.nodes[w].xswrite && Exec(g, w) && SameXState(g, w, r) && Less(g, w, r)
  }

  ghost predicate Latest(g: Events, r: NodeRef, w: NodeRef, hi: nat)
    requires r < |g.nodes| && w < |g.nodes| && hi <= |g.nodes|
  {
    Before(g, r, w) && forall x: nat :: x < hi && Before(g, r, x) ==> !Less(g, w, x)
  }

  lemma {:induction false} LatestExists(g: Events, r: NodeRef, hi: nat) returns (w: NodeRef)
    requires WellFormed(g) && r < |g.nodes| && r != g.entry && hi <= |g.nodes|
    ensures w < |g.nodes| && Latest(g, r, w, hi)
    decreases hi
  {
    if hi == 0 {
      w := g.entry;
      assert NodeOk(g, g.entry);
      LessIsOrder(g, r, r, r);
    } else {
      w := LatestExists(g, r, hi - 1);
      if Before(g, r, hi - 1) && Less(g, w, hi - 1) {
        forall x: nat | x < hi && Before(g, r, x)
          ensures !Less(g, hi - 1, x)
        {
          LessIsOrder(g, w, hi - 1, x);
          LessIsOrder(g, x, x, x);
        }
        w := hi - 1;
      }
    }
  }

  /** An ordinary access lies between the entry and the exits, and shares its state
      with every write that could be its source. */
  lemma SourceStates(g: Events, r: NodeRef, w: NodeRef, x: NodeRef)
    requires WellFormed(g) && r < |g.nodes| && w < |g.nodes| && x < |g.nodes| && g.nodes[r].kind == Regular
    requires Before(g, r, w) && Before(g, r, x)
    ensures SameXState(g, w, x)
  {
    assert NodeOk(g, r) && NodeOk(g, w) && NodeOk(g, x);
  }

  /** `x` is executed, writes `r`'s state, and comes before `r` in the assigned order. */
  ghost predicate WritesBefore(g: Events, r: NodeRef, x: NodeRef)
    requires r < |g.nodes| && x < |g.nodes|
  {
    && g.nodes[x].kind == Regular && WritesState(g, x)
    && g.nodes[x].mayAccess && g.nodes[x].xstate == g.nodes[r].xstate && Ordered(g, x, r)
  }

  lemma BeforeIs(g: Events, r: NodeRef, x: NodeRef)
    requires WellFormed(g) && r < |g.nodes| && x < |g.nodes| && g.nodes[r].kind == Regular && g.nodes[r].mayAccess
    ensures Before(g, r, x) <==> x == g.entry || WritesBefore(g, r, x)
  {
    LessIsSooner(g, x, r);
    assert NodeOk(g, r) && NodeOk(g, x);
  }

  /** Every executed ordinary state read has exactly one source: of the executed writes of its state that come
      before it in the assigned order the one that comes last, or the entry if there is none. */
  lemma OneSource(g: Events, r: NodeRef) returns (w: NodeRef)
    requires WellFormed(g) && r < |g.nodes| && g.nodes[r].kind == Regular && g.nodes[r].xsread && Exec(g, r)
    ensures w < |g.nodes| && forall src: nat :: src < |g.nodes| ==> (Rfx(g, src, r) <==> src == w)
    ensures w == g.entry || WritesBefore(g, r, w)
    ensures forall x: nat :: x < |g.nodes| && WritesBefore(g, r, x) ==> w != g.entry && (x == w || Ordered(g, x, w))
  {
    hide Sooner, Ordered;
    assert NodeOk(g, r);
    w := LatestExists(g, r, |g.nodes|);
    LatestIsLast(g, r, w);
    forall src: nat | src < |g.nodes|
      ensures Rfx(g, src, r) <==> src == w
    {
      if src == w {
        forall x: nat | x < |g.nodes|
          ensures !Intervenes(g, w, r, x)
        {
          assert Intervenes(g, w, r, x) ==> Before(g, r, x);
        }
      } else if Before(g, r, src) {
        SourceStates(g, r, src, w);
        SourceStates(g, r, w, src);
        LessIsOrder(g, src, w, r);
        assert Intervenes(g, src, r, w);
      }
    }
  }

  lemma LatestIsLast(g: Events, r: NodeRef, w: NodeRef)
    requires WellFormed(g) && r < |g.nodes| && w < |g.nodes| && g.nodes[r].kind == Regular && g.nodes[r].mayAccess
    requires Latest(g, r, w, |g.nodes|)
    ensures w == g.entry || WritesBefore(g, r, w)
    ensures forall x: nat :: x < |g.nodes| && WritesBefore(g, r, x) ==> w != g.entry && (x == w || Ordered(g, x, w))
  {
    hide Less;
    BeforeIs(g, r, w);
    forall x: nat | x < |g.nodes| && WritesBefore(g, r, x)
      ensures w != g.entry && (x == w || Ordered(g, x, w))
    {
      BeforeIs(g, r, x);
      LessIsSooner(g, w, x);
      assert NodeOk(g, w) && NodeOk(g, x);
    }
  }

  /** Coherence orders the executed writes of a state by their assigned order, and from-reads leads from a read to
      the writes after it. */
  lemma CoxAndFrxFollowOrder(g: Events, a: NodeRef, d: NodeRef)
    requires WellFormed(g) && a < |g.nodes| && d < |g.nodes| && g.nodes[a].kind == Regular && g.nodes[d].kind == Regular
    ensures Cox(g, a, d) <==> WritesState(g, a) && WritesState(g, d) && Touch(g, a, d) && Ordered(g, a, d)
    ensures Frx(g, a, d) <==>
            && g.nodes[a].xsread && (g.nodes[a].arch || g.nodes[a].trans)
            && WritesState(g, d) && Touch(g, a, d) && Ordered(g, a, d)
  {
    LessIsSooner(g, a, d);
  }

  ghost predicate RfxThenCox(g: Events, r: NodeRef, d: NodeRef)
    requires r < |g.nodes| && d < |g.nodes|
  {
    exists w: nat :: w < |g.nodes| && Rfx(g, w, r) && Cox(g, w, d)
  }

  /** From-reads is reads-from backwards and then coherence. */
  lemma FrxIsRfxThenCox(g: Events, r: NodeRef, d: NodeRef)
    requires WellFormed(g) && r < |g.nodes| && d < |g.nodes| && r != d && g.nodes[r].kind == Regular
    requires g.nodes[d].kind == Regular
    requires SameXState(g, r, d)
    ensures Frx(g, r, d) <==> RfxThenCox(g, r, d)
  {
    assert NodeOk(g, r) && NodeOk(g, d);
    if Frx(g, r, d) {
      var w := OneSource(g, r);
      assert Rfx(g, w, r);
      assert NodeOk(g, w);
      LessIsOrder(g, w, r, d);
      assert Cox(g, w, d);
    }
    if RfxThenCox(g, r, d) {
      var w: nat :| w < |g.nodes| && Rfx(g, w, r) && Cox(g, w, d);
      assert NodeOk(g, w);
      LessIsOrder(g, r, d, r);
      assert !Intervenes(g, w, r, d);
    }
  }
}
