/** The memory relations of an event graph under one assignment: reads-from encoded
    as a conditional-store fold over truth values, as a fold over node references,
    and as a chain of negated conditions; coherence and from-reads. */
module Memory {
  import opened Digraph

  type NodeRef = nat
  type Rows = map<NodeRef, set<NodeRef>>

  datatype Kind = Entry | Exit | Regular

  datatype Node = Node(kind: Kind, mayRead: bool, mayWrite: bool, memory: bool, arch: bool, trans: bool, read: bool,
                       write: bool, addr: int)

  /** The events in reverse postorder: every edge goes to a larger reference. */
  datatype Events = Events(nodes: seq<Node>, entry: NodeRef)

  predicate Special(g: Events, x: NodeRef)
    requires x < |g.nodes|
  {
    g.nodes[x].kind != Regular
  }

  predicate Exec(g: Events, x: NodeRef)
    requires x < |g.nodes|
  {
    g.nodes[x].arch || g.nodes[x].trans
  }

  ghost predicate Entered(g: Events) {
    && g.entry < |g.nodes|
    && var e := g.nodes[g.entry]; e.kind == Entry && !e.memory && e.mayWrite && e.write && !e.mayRead && e.arch
  }

  /** What the instruction kinds guarantee: one entry, which comes first and writes; exits only read;
      only memory instructions write; nothing is written that may not be. */
  ghost predicate WellFormed(g: Events) {
    && Entered(g)
    && (forall x: nat :: x < |g.nodes| && x != g.entry ==>
          && g.entry < x
          && g.nodes[x].kind != Entry
          && (g.nodes[x].kind == Exit ==> !g.nodes[x].mayWrite && !g.nodes[x].memory && g.nodes[x].mayRead)
          && (g.nodes[x].mayWrite ==> g.nodes[x].memory)
          && (g.nodes[x].write ==> g.nodes[x].mayWrite)
          && (g.nodes[x].read ==> g.nodes[x].mayRead))
  }

  // ---------------------------------------------------------------- arrays

  datatype Arr<T> = Arr(rest: T, at: map<int, T>)

  function Select<T>(a: Arr<T>, i: int): T {
    if i in a.at then a.at[i] else a.rest
  }

  function ConditionalStore<T>(a: Arr<T>, i: int, v: T, c: bool): Arr<T> {
    Arr(a.rest, a.at[i := if c then v else Select(a, i)])
  }

  // ---------------------------------------------------------------- the last writer

  /** `x` architecturally writes to `a`. */
  ghost predicate Writes(g: Events, x: NodeRef, a: int)
    requires x < |g.nodes|
  {
    g.nodes[x].memory && g.nodes[x].mayWrite && g.nodes[x].arch && g.nodes[x].write && g.nodes[x].addr == a
  }

  /** `w` is the last write to `a` before `hi`, or the entry if there is none. */
  ghost predicate LastWrite(g: Events, a: int, hi: nat, w: NodeRef)
    requires hi <= |g.nodes|
  {
    && (forall x: nat :: w < x < hi ==> !Writes(g, x, a))
    && if w == g.entry then forall x: nat :: x < hi ==> !Writes(g, x, a) else w < hi && Writes(g, w, a)
  }

  lemma {:induction false} LastWriteExists(g: Events, a: int, hi: nat) returns (w: NodeRef)
    requires WellFormed(g) && hi <= |g.nodes|
    ensures LastWrite(g, a, hi, w) && w < |g.nodes|
    decreases hi
  {
    if hi == 0 {
      w := g.entry;
    } else if Writes(g, hi - 1, a) {
      w := hi - 1;
    } else {
      w := LastWriteExists(g, a, hi - 1);
    }
  }

  lemma LastWriteUnique(g: Events, a: int, hi: nat, w: NodeRef, w': NodeRef)
    requires WellFormed(g) && hi <= |g.nodes| && LastWrite(g, a, hi, w) && LastWrite(g, a, hi, w')
    ensures w == w'
  {
  }

  lemma LastWriteStep(g: Events, a: int, k: nat, w: NodeRef)
    requires WellFormed(g) && k < |g.nodes|
    ensures LastWrite(g, a, k + 1, w) <==> if Writes(g, k, a) then w == k else LastWrite(g, a, k, w)
  {
    assert !Writes(g, g.entry, a);
    if !Writes(g, k, a) && LastWrite(g, a, k + 1, w) {
      assert LastWrite(g, a, k, w);
    }
  }

  // ---------------------------------------------------------------- communication

  datatype Access = READ | WRITE

  predicate MayAccess(n: Node, kind: Access) {
    if kind == READ then n.mayRead else n.mayWrite
  }

  predicate SameAddr(g: Events, x: NodeRef, y: NodeRef)
    requires x < |g.nodes| && y < |g.nodes|
  {
    Special(g, x) || Special(g, y) || g.nodes[x].addr == g.nodes[y].addr
  }

  predicate Precond(g: Events, src: NodeRef, dst: NodeRef, srcKind: Access, dstKind: Access)
    requires src < |g.nodes| && dst < |g.nodes|
  {
    && MayAccess(g.nodes[src], srcKind) && MayAccess(g.nodes[dst], dstKind)
    && src < dst
    && g.nodes[src].arch && g.nodes[dst].arch && SameAddr(g, src, dst)
  }

  predicate Co(g: Events, src: NodeRef, dst: NodeRef)
    requires src < |g.nodes| && dst < |g.nodes|
  {
    Precond(g, src, dst, WRITE, WRITE)
  }

  predicate Fr(g: Events, src: NodeRef, dst: NodeRef)
    requires src < |g.nodes| && dst < |g.nodes|
  {
    Precond(g, src, dst, READ, WRITE)
  }

  /** Both are executed architecturally and at one address; the entry and the exits are at every address. */
  ghost predicate Meet(m: Node, n: Node) {
    m.arch && n.arch && (m.kind != Regular || n.kind != Regular || m.addr == n.addr)
  }

  /** `dst` reads from `src`: the entry reaches an exit untouched, or `src` is the last
      write before `dst` to the address in question. */
  ghost predicate Rf(g: Events, src: NodeRef, dst: NodeRef)
    requires src < |g.nodes| && dst < |g.nodes|
  {
    var m, n := g.nodes[src], g.nodes[dst];
    && m.mayWrite && n.mayRead && src < dst && Meet(m, n)
    && (m.kind == Regular || n.kind == Regular ==>
          LastWrite(g, if src == g.entry then n.addr else m.addr, dst, src))
  }

  /** Coherence orders the nodes that may write to one address, and from-reads leads from a node that may read to
      those that may write after it. */
  lemma CoAndFrFollowOrder(g: Events, a: NodeRef, d: NodeRef)
    requires a < |g.nodes| && d < |g.nodes|
    ensures Co(g, a, d) <==> g.nodes[a].mayWrite && g.nodes[d].mayWrite && a < d && Meet(g.nodes[a], g.nodes[d])
    ensures Fr(g, a, d) <==> g.nodes[a].mayRead && g.nodes[d].mayWrite && a < d && Meet(g.nodes[a], g.nodes[d])
  {
  }

  /** The conditional-store encoding of reads-from. */
  method RfExists(g: Events, src: NodeRef, dst: NodeRef) returns (b: bool)
    requires WellFormed(g) && src < |g.nodes| && dst < |g.nodes|
    ensures b == Rf(g, src, dst)
  {
    if !Precond(g, src, dst, WRITE, READ) {
      return false;
    }
    if Special(g, src) && Special(g, dst) {
      return g.nodes[src].kind == Entry && g.nodes[dst].kind == Exit && g.nodes[src].arch && g.nodes[dst].arch;
    }
    var mem := Arr(src == g.entry, map[]);
    var addr := if src == g.entry then g.nodes[dst].addr else g.nodes[src].addr;
    var ref := 0;
    while ref != dst
      invariant ref <= dst
      invariant Select(mem, addr) <==> LastWrite(g, addr, ref, src)
      decreases dst - ref
    {
      LastWriteStep(g, addr, ref, src);
      if g.nodes[ref].mayWrite && g.nodes[ref].memory {
        mem := ConditionalStore(mem, g.nodes[ref].addr, src == ref, g.nodes[ref].arch && g.nodes[ref].write);
      }
      ref := ref + 1;
    }
    return Select(mem, addr);
  }

  /** Every architecturally executed ordinary read has exactly one source: the last same-address
      write before it, or the entry. */
  lemma OneSource(g: Events, r: NodeRef) returns (w: NodeRef)
    requires WellFormed(g) && r < |g.nodes| && !Special(g, r) && g.nodes[r].mayRead && g.nodes[r].arch
    ensures w < r && LastWrite(g, g.nodes[r].addr, r, w)
    ensures forall src: nat :: src < |g.nodes| ==> (Rf(g, src, r) <==> src == w)
  {
    w := LastWriteExists(g, g.nodes[r].addr, r);
    forall src: nat | src < |g.nodes|
      ensures Rf(g, src, r) <==> src == w
    {
      if Rf(g, src, r) {
        LastWriteUnique(g, g.nodes[r].addr, r, src, w);
      }
    }
  }

  /** Some same-address write is executed from `d` on and before `r`. */
  ghost predicate WriteFrom(g: Events, d: NodeRef, r: NodeRef)
    requires d < |g.nodes| && r < |g.nodes|
  {
    exists x: nat :: d <= x < r && Writes(g, x, g.nodes[r].addr)
  }

  ghost predicate RfThenCo(g: Events, r: NodeRef, d: NodeRef)
    requires r < |g.nodes| && d < |g.nodes|
  {
    exists w: nat :: w < |g.nodes| && Rf(g, w, r) && Co(g, w, d)
  }

  /** From-reads is reads-from backwards and then coherence, except for a write that is
      not performed, lies before the read, and is followed by no write up to the read. */
  lemma FrIsRfThenCo(g: Events, r: NodeRef, d: NodeRef)
    requires WellFormed(g) && r < |g.nodes| && d < |g.nodes| && r != d && !Special(g, r) && !Special(g, d)
    requires g.nodes[r].addr == g.nodes[d].addr
    ensures (Fr(g, r, d) <==> RfThenCo(g, r, d)) <==>
            !(d < r && g.nodes[r].arch && g.nodes[r].mayRead && g.nodes[d].arch && g.nodes[d].mayWrite &&
              !WriteFrom(g, d, r))
  {
    if g.nodes[r].mayRead && g.nodes[r].arch {
      var w := OneSource(g, r);
      if Fr(g, r, d) {
        assert Rf(g, w, r) && Co(g, w, d);
      }
      if d < r && WriteFrom(g, d, r) {
        var x: nat :| d <= x < r && Writes(g, x, g.nodes[r].addr);
        assert w >= x;
      }
      if d < r && !WriteFrom(g, d, r) {
        assert w < d;
        assert g.nodes[d].arch && g.nodes[d].mayWrite ==> Rf(g, w, r) && Co(g, w, d);
      }
    }
  }

  /** For stores, whose write is always performed, the law holds outright. */
  lemma FrForStores(g: Events, r: NodeRef, d: NodeRef)
    requires WellFormed(g) && r < |g.nodes| && d < |g.nodes| && r != d && !Special(g, r) && !Special(g, d)
    requires g.nodes[r].addr == g.nodes[d].addr
    requires g.nodes[d].write
    ensures Fr(g, r, d) <==> RfThenCo(g, r, d)
  {
    FrIsRfThenCo(g, r, d);
    assert d < r && g.nodes[d].arch && g.nodes[d].mayWrite ==> Writes(g, d, g.nodes[r].addr);
  }

  /** A call that might have written but did not: the read after it reads from the entry,
      which is coherence-before the call, yet the read is not from-reads-before it. */
  lemma FrBroken()
    ensures exists g: Events, r: nat, d: nat ::
              && WellFormed(g) && r < |g.nodes| && d < |g.nodes| && r != d && !Special(g, r) && !Special(g, d)
              && g.nodes[r].addr == g.nodes[d].addr && RfThenCo(g, r, d) && !Fr(g, r, d)
  {
    var entry := Node(Entry, false, true, false, true, false, false, true, 0);
    var call := Node(Regular, true, true, true, true, false, false, false, 7);
    var load := Node(Regular, true, false, true, true, false, true, false, 7);
    var g := Events([entry, call, load], 0);
    assert Rf(g, 0, 2) && Co(g, 0, 1);
    assert RfThenCo(g, 2, 1) && !Fr(g, 2, 1);
  }

  // ---------------------------------------------------------------- the fold over references

  /** `x` is executed, even if only transiently, and writes to `a`. */
  ghost predicate ExecWrites(g: Events, x: NodeRef, a: int)
    requires x < |g.nodes|
  {
    g.nodes[x].mayWrite && (g.nodes[x].arch || g.nodes[x].trans) && g.nodes[x].write && g.nodes[x].addr == a
  }

  ghost predicate LastExecWrite(g: Events, window: set<NodeRef>, a: int, hi: nat, w: NodeRef)
    requires hi <= |g.nodes|
  {
    && (forall x: nat :: w < x < hi && x in window && x != g.entry ==> !ExecWrites(g, x, a))
    && (w == g.entry || (w < hi && w in window && ExecWrites(g, w, a)))
    && (w == g.entry ==> forall x: nat :: x < hi && x in window && x != g.entry ==> !ExecWrites(g, x, a))
  }

  lemma LastExecNext(g: Events, window: set<NodeRef>, a: int, ref: NodeRef, w: NodeRef)
    requires WellFormed(g) && ref < |g.nodes| && ref in window && ref != g.entry && LastExecWrite(g, window, a, ref, w)
    ensures LastExecWrite(g, window, a, ref + 1, if ExecWrites(g, ref, a) then ref else w)
  {
  }

  /** Memory as seen by each node of the window: for every address the reference of its last writer. */
  method GetMems(g: Events, window: set<NodeRef>) returns (ins: map<NodeRef, Arr<NodeRef>>)
    requires WellFormed(g)
    ensures forall x: nat :: x in ins <==> x < |g.nodes| && x in window && x != g.entry
    ensures forall x, a :: x in ins ==> LastExecWrite(g, window, a, x, Select(ins[x], a))
  {
    ins := map[];
    var outs: map<NodeRef, Arr<NodeRef>> := map[];
    var mem: Arr<NodeRef> := Arr(g.entry, map[]);
    for ref := 0 to |g.nodes|
      invariant forall x: nat :: x in ins <==> x < ref && x in window && x != g.entry
      invariant forall x, a :: x in ins ==> LastExecWrite(g, window, a, x, Select(ins[x], a))
      invariant forall a :: LastExecWrite(g, window, a, ref, Select(mem, a))
    {
      if ref == g.entry || ref !in window {
        continue;
      }
      ins := ins[ref := mem];
      forall a
        ensures LastExecWrite(g, window, a, ref + 1, if ExecWrites(g, ref, a) then ref else Select(mem, a))
      {
        LastExecNext(g, window, a, ref, Select(mem, a));
      }
      if g.nodes[ref].mayWrite {
        mem := ConditionalStore(mem, g.nodes[ref].addr, ref, Exec(g, ref) && g.nodes[ref].write);
      }
      outs := outs[ref := mem];
    }
  }

  // ---------------------------------------------------------------- the chain

  /** What the chain asks of a store. */
  ghost predicate Candidate(g: Events, store: NodeRef, load: NodeRef)
    requires store < |g.nodes| && load < |g.nodes|
  {
    var s, l := g.nodes[store], g.nodes[load];
    s.mayWrite && (s.arch || s.trans) && s.write && (s.kind != Regular || l.kind != Regular || s.addr == l.addr)
  }

  /** Each store's condition: it writes, and nothing later in the window does. */
  method PrecomputeRfOne(g: Events, load: NodeRef, window: set<NodeRef>) returns (yesses: map<NodeRef, bool>)
    requires load < |g.nodes|
    ensures forall s: nat :: s in yesses <==> s < |g.nodes| && s in window && g.nodes[s].mayWrite
    ensures forall s :: s in yesses ==>
              (yesses[s] <==> Candidate(g, s, load) && forall t: nat :: s < t < |g.nodes| && t in window ==>
               !Candidate(g, t, load))
  {
    var no := true;
    yesses := map[];
    var store := |g.nodes|;
    while store > 0
      invariant store <= |g.nodes|
      invariant no <==> forall t: nat :: store <= t < |g.nodes| && t in window ==> !Candidate(g, t, load)
      invariant forall s: nat :: s in yesses <==> store <= s < |g.nodes| && s in window && g.nodes[s].mayWrite
      invariant forall s :: s in yesses ==>
                  (yesses[s] <==> Candidate(g, s, load) && forall t: nat :: s < t < |g.nodes| && t in window ==>
                   !Candidate(g, t, load))
    {
      store := store - 1;
      if store !in window || !g.nodes[store].mayWrite {
        continue;
      }
      var write := Exec(g, store) && g.nodes[store].write && SameAddr(g, store, load);
      yesses := yesses[store := no && write];
      no := no && !write;
    }
  }

  // ---------------------------------------------------------------- backward reachability in a window

  ghost predicate Inside(p: seq<NodeRef>, window: set<NodeRef>) {
    forall i :: 0 <= i < |p| ==> p[i] in window
  }

  /** A path inside the window leads from `init` against the edges to `x`. */
  ghost predicate Back(rev: Rows, window: set<NodeRef>, init: NodeRef, x: NodeRef) {
    exists p :: Path(rev, p, init, x) && Inside(p, window)
  }

  lemma BackStep(rev: Rows, window: set<NodeRef>, init: NodeRef, x: NodeRef, y: NodeRef)
    requires Back(rev, window, init, x) && Edge(rev, x, y) && y in window
    ensures Back(rev, window, init, y)
  {
    var p :| Path(rev, p, init, x) && Inside(p, window);
    var q := p + [y];
    forall i | 0 <= i < |q| - 1
      ensures Edge(rev, q[i], q[i + 1])
    {
      if i < |p| - 1 {
        assert Edge(rev, p[i], p[i + 1]);
      }
    }
    assert Path(rev, q, init, y) && Inside(q, window);
  }

  /** A set that holds `init` and all that precedes it inside the window holds everything behind it. */
  lemma {:induction false} BackClosed(rev: Rows, window: set<NodeRef>, init: NodeRef, seen: set<NodeRef>,
                                      p: seq<NodeRef>, x: NodeRef)
    requires (init in window ==> init in seen)
    requires forall a, b :: a in seen && Edge(rev, a, b) && b in window ==> b in seen
    requires Path(rev, p, init, x) && Inside(p, window)
    ensures x in seen
    decreases |p|
  {
    if |p| > 1 {
      PathPrefix(rev, p, init, x, |p| - 2);
      assert Edge(rev, p[|p| - 2], p[|p| - 2 + 1]);
      BackClosed(rev, window, init, seen, p[..|p| - 1], p[|p| - 2]);
    }
    assert p[|p| - 1] in window;
  }

  ghost predicate Seen(rev: Rows, window: set<NodeRef>, init: NodeRef, seen: set<NodeRef>, todo: seq<NodeRef>) {
    && (init in window ==> init in seen || init in todo)
    && (forall x :: x in seen ==> x in window && Back(rev, window, init, x))
    && (forall x :: x in todo ==> x in rev && (x in window ==> Back(rev, window, init, x)))
    && (forall a, b :: a in seen && Edge(rev, a, b) && b in window ==> b in seen || b in todo)
  }

  method ReachableR(rev: Rows, window: set<NodeRef>, init: NodeRef) returns (seen: set<NodeRef>)
    requires Closed(rev) && init in rev
    ensures forall x :: x in seen <==> Back(rev, window, init, x)
  {
    hide Back;
    var todo := [init];
    seen := {};
    SeenStart(rev, window, init);
    while todo != []
      invariant Seen(rev, window, init, seen, todo)
      decreases |window - seen|, |todo|
    {
      var ref := todo[|todo| - 1];
      ghost var before := todo;
      todo := todo[..|todo| - 1];
      assert before == todo + [ref];
      if ref in window && ref !in seen {
        assert window - (seen + {ref}) == (window - seen) - {ref};
        var preds := Listed(rev[ref]);
        SeenMore(rev, window, init, seen, before, ref, preds);
        seen := seen + {ref};
        todo := todo + preds;
      }
    }
    SeenAll(rev, window, init, seen);
  }

  lemma SeenStart(rev: Rows, window: set<NodeRef>, init: NodeRef)
    requires init in rev
    ensures Seen(rev, window, init, {}, [init])
  {
    if init in window {
      assert Path(rev, [init], init, init) && Inside([init], window);
    }
  }

  lemma SeenMore(rev: Rows, window: set<NodeRef>, init: NodeRef, seen: set<NodeRef>, todo: seq<NodeRef>, ref: NodeRef,
                 preds: seq<NodeRef>)
    requires Closed(rev) && Seen(rev, window, init, seen, todo) && |todo| > 0 && ref == todo[|todo| - 1]
    requires ref in window
    requires forall x :: x in preds <==> Edge(rev, ref, x)
    ensures Seen(rev, window, init, seen + {ref}, todo[..|todo| - 1] + preds)
  {
    hide Back;
    assert todo == todo[..|todo| - 1] + [ref];
    forall x | x in preds && x in window
      ensures Back(rev, window, init, x)
    {
      BackStep(rev, window, init, ref, x);
    }
  }

  lemma SeenAll(rev: Rows, window: set<NodeRef>, init: NodeRef, seen: set<NodeRef>)
    requires Seen(rev, window, init, seen, [])
    ensures forall x :: x in seen <==> Back(rev, window, init, x)
  {
    forall x | Back(rev, window, init, x)
      ensures x in seen
    {
      var p :| Path(rev, p, init, x) && Inside(p, window);
      BackClosed(rev, window, init, seen, p, x);
    }
  }

  // ---------------------------------------------------------------- the encodings agree

  ghost predicate Upward(fwd: Rows) {
    forall a, b :: Edge(fwd, a, b) ==> a < b
  }

  /** The executed nodes are those of one path from the entry, none of them transient, all in the window. */
  ghost predicate OnePath(g: Events, fwd: Rows, window: set<NodeRef>, p: seq<NodeRef>) {
    && |p| > 0 && p[0] == g.entry && Inside(p, window)
    && (forall i :: 0 <= i < |p| - 1 ==> Edge(fwd, p[i], p[i + 1]))
    && (forall x: nat :: x < |g.nodes| ==> !g.nodes[x].trans && (g.nodes[x].arch <==> x in p))
  }

  /** When nothing is transient and the window holds what is executed, the two folds pick the
      same source: the array read at a load gives the node it reads from. */
  lemma FoldsAgree(g: Events, window: set<NodeRef>, load: NodeRef, w: NodeRef)
    requires WellFormed(g) && load < |g.nodes| && !Special(g, load) && g.nodes[load].mayRead && g.nodes[load].arch
    requires forall x: nat :: x < |g.nodes| ==> !g.nodes[x].trans && (g.nodes[x].arch ==> x in window)
    requires w < |g.nodes|
    ensures Rf(g, w, load) <==> LastExecWrite(g, window, g.nodes[load].addr, load, w)
  {
    var a := g.nodes[load].addr;
    forall x: nat | x < |g.nodes| && x != g.entry
      ensures Writes(g, x, a) <==> x in window && ExecWrites(g, x, a)
    {
    }
    assert LastWrite(g, a, load, w) <==> LastExecWrite(g, window, a, load, w);
    assert w != g.entry && Rf(g, w, load) ==> g.nodes[w].addr == a;
    assert w != g.entry && LastWrite(g, a, load, w) ==> g.nodes[w].addr == a;
  }

  /** The array and the chain pick the same source for an executed load that does not write,
      and it is the one the load reads from. */
  lemma EncodingsAgree(g: Events, fwd: Rows, rev: Rows, window: set<NodeRef>, p: seq<NodeRef>, load: NodeRef,
                       near: set<NodeRef>, w: NodeRef, s: NodeRef)
    requires WellFormed(g) && Converse(fwd, rev) && Upward(fwd) && OnePath(g, fwd, window, p)
    requires load < |g.nodes| && load in p && !Special(g, load) && !g.nodes[load].write
    requires near == (set x | x in window && Back(rev, window, load, x))
    requires LastExecWrite(g, window, g.nodes[load].addr, load, w)
    requires s < |g.nodes| && s in near
    ensures (Candidate(g, s, load) && forall t: nat :: s < t < |g.nodes| && t in near ==> !Candidate(g, t, load)) <==>
            s == w
    ensures g.nodes[load].mayRead ==> Rf(g, w, load)
  {
    hide Back, Path;
    if g.nodes[load].mayRead {
      FoldsAgree(g, window, load, w);
    }
    forall x | x in near
      ensures x <= load
    {
      BackIsBelow(g, fwd, rev, window, load, x);
    }
    forall x: nat | x in p && x <= load
      ensures x in near
    {
      EarlierIsBack(g, fwd, rev, window, p, load, x);
    }
    assert g.entry in p by {
      assert p[0] == g.entry;
    }
    assert w in near;
    assert Candidate(g, w, load);
  }

  lemma BackIsBelow(g: Events, fwd: Rows, rev: Rows, window: set<NodeRef>, load: NodeRef, x: NodeRef)
    requires Converse(fwd, rev) && Upward(fwd) && Back(rev, window, load, x)
    ensures x <= load
  {
    var q :| Path(rev, q, load, x) && Inside(q, window);
    Descends(fwd, rev, q, load, x);
  }

  lemma {:induction false} Descends(fwd: Rows, rev: Rows, q: seq<NodeRef>, a: NodeRef, x: NodeRef)
    requires Converse(fwd, rev) && Upward(fwd) && Path(rev, q, a, x)
    ensures x <= a
    decreases |q|
  {
    if |q| > 1 {
      PathPrefix(rev, q, a, x, |q| - 2);
      assert Edge(rev, q[|q| - 2], q[|q| - 2 + 1]);
      assert Edge(fwd, x, q[|q| - 2]);
      Descends(fwd, rev, q[..|q| - 1], a, q[|q| - 2]);
    }
  }

  lemma EarlierIsBack(g: Events, fwd: Rows, rev: Rows, window: set<NodeRef>, p: seq<NodeRef>, load: NodeRef, x: NodeRef)
    requires Converse(fwd, rev) && Upward(fwd) && OnePath(g, fwd, window, p) && load in p && x in p && x <= load
    ensures x in window && Back(rev, window, load, x)
  {
    var i :| 0 <= i < |p| && p[i] == x;
    var j :| 0 <= j < |p| && p[j] == load;
    if j < i {
      Ascends(fwd, p, j, i);
    }
    var q := p[i..j + 1];
    assert Path(fwd, q, x, load) by {
      forall k | 0 <= k < |q| - 1
        ensures Edge(fwd, q[k], q[k + 1])
      {
        assert Edge(fwd, p[i + k], p[i + k + 1]);
      }
    }
    ConversePath(fwd, rev, q, x, load);
    assert Inside(Reversed(q), window);
  }

  lemma {:induction false} Ascends(fwd: Rows, p: seq<NodeRef>, i: nat, j: nat)
    requires Upward(fwd) && (forall i :: 0 <= i < |p| - 1 ==> Edge(fwd, p[i], p[i + 1])) && i < j < |p|
    ensures p[i] < p[j]
    decreases j - i
  {
    assert Edge(fwd, p[j - 1], p[j - 1 + 1]);
    if i < j - 1 {
      Ascends(fwd, p, i, j - 1);
    }
  }
}
