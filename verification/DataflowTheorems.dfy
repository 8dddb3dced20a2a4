/** What a dataflow run means for instructions: the cache is harmless when it starts
    empty, graphs of instructions and graphs of blocks give the same results, and
    the transient alias analysis is an instance. */
module DataflowTheorems {
  import opened Dataflow

  // ---------------------------------------------------------------- the cache

  /** A component that would leave every value inside it at top. */
  ghost predicate TopInside<V>(l: Lattice<V>, c: Component, v: V) {
    forall k: nat {:trigger Trace(l, c.lo, k, v)} :: c.lo < k <= c.hi ==> Trace(l, c.lo, k, v) == l.top
  }

  ghost predicate AllRight<V>(l: Lattice<V>, cs: seq<Component>, e: seq<V>, ins: seq<V>, outs: seq<V>)
    requires |e| == |cs|
  {
    forall c :: 0 <= c < |cs| ==> Right(l, cs[c], e[c], ins, outs)
  }

  /** A run that starts with an empty cache gives what the equations ask for, at every instruction. */
  lemma EmptyCacheHarmless<V>(l: Lattice<V>, cs: seq<Component>, ev: V, e: seq<V>, ins: seq<V>, outs: seq<V>)
    requires |e| == |cs| && Settled(l, cs, ev, map[], e, ins, outs)
    ensures AllRight(l, cs, e, ins, outs)
  {
    forall c | 0 <= c < |cs|
      ensures Right(l, cs[c], e[c], ins, outs)
    {
      assert !Stale(l, ev, map[], e, c);
    }
  }

  /** With any cache the results are right exactly when every stale component's values are top anyway. */
  lemma CacheHarmlessIff<V>(l: Lattice<V>, cs: seq<Component>, n: nat, ev: V, was: map<nat, CacheEntry<V>>, e: seq<V>,
                            ins: seq<V>, outs: seq<V>)
    requires GraphOk(cs, n) && |e| == |cs| && |ins| == |outs| == n && Settled(l, cs, ev, was, e, ins, outs)
    ensures AllRight(l, cs, e, ins, outs) <==>
            forall c :: 0 <= c < |cs| && Stale(l, ev, was, e, c) ==> TopInside(l, cs[c], e[c])
  {
    Bounds(cs, n, ins);
    forall c | 0 <= c < |cs|
      ensures Right(l, cs[c], e[c], ins, outs) <==> (Stale(l, ev, was, e, c) ==> TopInside(l, cs[c], e[c]))
    {
      if Stale(l, ev, was, e, c) {
        RawIsRight(l, cs[c], e[c], ins, outs);
      }
    }
  }

  /** What a caller can look up before the run: if no component is cached with the value it will start
      from, the results are right. */
  lemma FreshStartsHarmless<V>(l: Lattice<V>, cs: seq<Component>, ev: V, was: map<nat, CacheEntry<V>>, e: seq<V>,
                               ins: seq<V>, outs: seq<V>)
    requires |e| == |cs| && Settled(l, cs, ev, was, e, ins, outs)
    requires forall c :: 0 <= c < |cs| && c in was ==> was[c].entry != Start(l, ev, c)
    ensures AllRight(l, cs, e, ins, outs)
  {
    forall c | 0 <= c < |cs|
      ensures Right(l, cs[c], e[c], ins, outs)
    {
      assert !Stale(l, ev, was, e, c);
    }
  }

  lemma RawIsRight<V>(l: Lattice<V>, c: Component, v: V, ins: seq<V>, outs: seq<V>)
    requires Raw(l, c, v, ins, outs) && c.lo < c.hi <= |ins| && |outs| == |ins|
    ensures Right(l, c, v, ins, outs) <==> TopInside(l, c, v)
  {
    if Right(l, c, v, ins, outs) {
      forall k: nat | c.lo < k <= c.hi
        ensures Trace(l, c.lo, k, v) == l.top
      {
        RightAt(l, c, v, ins, outs, k - 1);
        assert outs[k - 1] == l.top;
      }
    }
    if TopInside(l, c, v) {
      forall k: nat | c.lo <= k < c.hi
        ensures ins[k] == Trace(l, c.lo, k, v) && outs[k] == Trace(l, c.lo, k + 1, v)
      {
        assert k + 1 <= c.hi;
      }
    }
  }

  function Erase(i: nat, v: bool): bool {
    false
  }

  function And(a: bool, b: bool): bool {
    a && b
  }

  /** One instruction that turns every value into false. */
  function Eraser(): Lattice<bool> {
    Lattice({true, false}, true, And, Erase)
  }

  function Alone(): seq<Component> {
    [Component(0, 1, true, [])]
  }

  lemma EraserLawful()
    ensures Lawful(Eraser()) && GraphOk(Alone(), 1) && Greatest(Eraser(), Alone(), true, [true])
  {
    hide Outs;
    var l, cs := Eraser(), Alone();
    assert ComponentOk(cs, 0);
    forall s | Solves(l, cs, true, s)
      ensures AllLe(l, s, [true])
    {
      assert s[0] == Folded(l, Start(l, true, 0), Outs(l, cs, s), cs[0]);
    }
    assert Folded(l, Start(l, true, 0), Outs(l, cs, [true]), cs[0]) == true;
  }

  lemma EraserErases()
    ensures Trace(Eraser(), 0, 1, true) == false && !TopInside(Eraser(), Alone()[0], true)
  {
    OneInstruction(Eraser(), 0, true);
  }

  /** Running the same graph twice can go wrong: the second time the cache has the only
      component, and its output stays at top, where the equations ask for false. */
  method ReuseGoesWrong() returns (outs: seq<bool>, again: seq<bool>)
    ensures Lawful(Eraser()) && GraphOk(Alone(), 1) && Greatest(Eraser(), Alone(), true, [true])
    ensures AllRight(Eraser(), Alone(), [true], [true], outs) && !AllRight(Eraser(), Alone(), [true], [true], again)
    ensures outs == [false] && again == [true]
  {
    hide Lawful, Greatest, Settled, GraphOk, Trace;
    EraserLawful();
    EraserErases();
    var g := new Graph(Eraser(), Alone(), 1);
    var ins, x;
    ghost var e;
    ins, outs, x, e := g.Transfer(true);
    GreatestUnique(Eraser(), Alone(), true, e, [true]);
    ghost var was := g.cache;
    FirstRunRight(ins, outs);
    ins, again, x, e := g.Transfer(true);
    GreatestUnique(Eraser(), Alone(), true, e, [true]);
    SecondRunRaw(was, ins, again);
  }

  lemma FirstRunRight(ins: seq<bool>, outs: seq<bool>)
    requires |ins| == |outs| == 1 && Settled(Eraser(), Alone(), true, map[], [true], ins, outs)
    ensures ins == [true] && outs == [false] && AllRight(Eraser(), Alone(), [true], [true], [false])
  {
    hide Lawful, Greatest, Settled;
    EmptyCacheHarmless(Eraser(), Alone(), true, [true], ins, outs);
    EraserErases();
    assert Right(Eraser(), Alone()[0], [true][0], ins, outs);
    RightAt(Eraser(), Alone()[0], true, ins, outs, 0);
    assert Trace(Eraser(), 0, 0, true) == true;
  }

  lemma SecondRunRaw(was: map<nat, CacheEntry<bool>>, ins: seq<bool>, outs: seq<bool>)
    requires |ins| == |outs| == 1 && Settled(Eraser(), Alone(), true, was, [true], ins, outs)
    requires 0 in was && was[0].entry == true
    ensures ins == [true] && outs == [true] && !AllRight(Eraser(), Alone(), [true], [true], [true])
  {
    hide Lawful, Greatest;
    EraserErases();
    assert Stale(Eraser(), true, was, [true], 0);
    assert Raw(Eraser(), Alone()[0], [true][0], ins, outs);
    RawIsRight(Eraser(), Alone()[0], true, ins, outs);
    assert !Right(Eraser(), Alone()[0], [true][0], [true], [true]);
  }

  // ---------------------------------------------------------------- instructions and blocks

  ghost function OwnerOf(cs: seq<Component>, n: nat, k: nat): (c: nat)
    requires GraphOk(cs, n) && k < n
    ensures c < |cs| && cs[c].lo <= k < cs[c].hi
  {
    Find(cs, n, k, |cs| - 1)
  }

  ghost function Find(cs: seq<Component>, n: nat, k: nat, m: nat): (c: nat)
    requires GraphOk(cs, n) && m < |cs| && k < cs[m].hi
    ensures c <= m && cs[c].lo <= k < cs[c].hi
    decreases m
  {
    assert ComponentOk(cs, m);
    if k >= cs[m].lo then m else
      assert ComponentOk(cs, m - 1);
      Find(cs, n, k, m - 1)
  }

  lemma OwnerUnique(cs: seq<Component>, n: nat, k: nat, c: nat)
    requires GraphOk(cs, n) && k < n && c < |cs| && cs[c].lo <= k < cs[c].hi
    ensures OwnerOf(cs, n, k) == c
  {
    var d := OwnerOf(cs, n, k);
    BoundsFrom(cs, n, c);
    BoundsFrom(cs, n, d);
  }

  ghost function Ends(cs: seq<Component>, ps: seq<nat>): (qs: seq<nat>)
    ensures |qs| == |ps|
    ensures forall j :: 0 <= j < |ps| ==> qs[j] == (if ps[j] < |cs| && cs[ps[j]].hi > 0 then cs[ps[j]].hi - 1 else 0)
  {
    seq(|ps|, j requires 0 <= j < |ps| => if ps[j] < |cs| && cs[ps[j]].hi > 0 then cs[ps[j]].hi - 1 else 0)
  }

  /** The graph of single instructions for a graph of blocks. */
  ghost function PerInstruction(cs: seq<Component>, n: nat): (it: seq<Component>)
    requires GraphOk(cs, n)
    ensures |it| == n
    ensures forall k :: 0 <= k < n ==>
              it[k] == (if cs[OwnerOf(cs, n, k)].lo ==
                        k then Component(k, k + 1, true, Ends(cs, cs[OwnerOf(cs, n, k)].preds))
                        else Component(k, k + 1, false, [k - 1]))
  {
    seq(n, k requires 0 <= k < n =>
      if cs[OwnerOf(cs, n, k)].lo == k then Component(k, k + 1, true, Ends(cs, cs[OwnerOf(cs, n, k)].preds))
      else Component(k, k + 1, false, [k - 1]))
  }

  ghost predicate Blocks(cs: seq<Component>, n: nat) {
    GraphOk(cs, n) && forall c :: 0 <= c < |cs| ==> cs[c].front
  }

  lemma PerInstructionOk(cs: seq<Component>, n: nat)
    requires Blocks(cs, n)
    ensures GraphOk(PerInstruction(cs, n), n)
  {
    var it := PerInstruction(cs, n);
    BoundsFrom(cs, n, 0);
    OwnerUnique(cs, n, 0, 0);
    forall k | 0 <= k < |it|
      ensures ComponentOk(it, k)
    {
      var c := OwnerOf(cs, n, k);
      if cs[c].lo == k {
        assert ComponentOk(cs, c);
        forall j | 0 <= j < |it[k].preds|
          ensures it[k].preds[j] < |it|
        {
          BoundsFrom(cs, n, cs[c].preds[j]);
        }
      }
    }
  }

  /** The value before each instruction, from the blocks' entry values. */
  ghost function Expand<V>(l: Lattice<V>, cs: seq<Component>, n: nat, e: seq<V>): (r: seq<V>)
    requires GraphOk(cs, n) && |e| == |cs|
    ensures |r| == n && forall k :: 0 <= k < n ==> r[k] == Trace(l, cs[OwnerOf(cs, n, k)].lo, k, e[OwnerOf(cs, n, k)])
  {
    seq(n, k requires 0 <= k < n => Trace(l, cs[OwnerOf(cs, n, k)].lo, k, e[OwnerOf(cs, n, k)]))
  }

  ghost function Contract<V>(cs: seq<Component>, n: nat, r: seq<V>): (e: seq<V>)
    requires Sized(cs, n, r)
    ensures |e| == |cs| && forall c :: 0 <= c < |cs| ==> e[c] == r[cs[c].lo]
  {
    Entries(cs, n, r)
  }

  lemma OneInstruction<V>(l: Lattice<V>, k: nat, v: V)
    ensures Out(l, Component(k, k + 1, true, []), v) == l.transfer(k, v)
    ensures Trace(l, k, k + 1, v) == l.transfer(k, v)
  {
    assert Trace(l, k, k, v) == v;
  }

  /** Folding over instruction exits at the blocks' ends is folding over the blocks' exits. */
  lemma {:induction false} FoldEnds<V>(l: Lattice<V>, cs: seq<Component>, v: V, x: seq<V>, y: seq<V>, ps: seq<nat>,
                                       j: nat)
    requires j <= |ps| && |y| == |cs|
    requires forall i :: 0 <= i < |ps| ==> ps[i] < |cs| && 0 < cs[ps[i]].hi <= |x| && x[cs[ps[i]].hi - 1] == y[ps[i]]
    ensures Fold(l, v, x, Ends(cs, ps), j) == Fold(l, v, y, ps, j)
  {
    if j > 0 {
      FoldEnds(l, cs, v, x, y, ps, j - 1);
    }
  }

  lemma ExitsAgree<V>(l: Lattice<V>, cs: seq<Component>, n: nat, e: seq<V>, r: seq<V>, p: nat)
    requires Blocks(cs, n) && |e| == |cs| && |r| == n && p < |cs| && r == Expand(l, cs, n, e)
    ensures 0 < cs[p].hi <= n && Outs(l, PerInstruction(cs, n), r)[cs[p].hi - 1] == Outs(l, cs, e)[p]
  {
    BoundsFrom(cs, n, p);
    var k := cs[p].hi - 1;
    OwnerUnique(cs, n, k, p);
    OneInstruction(l, k, r[k]);
  }

  lemma EntryAgrees<V>(l: Lattice<V>, cs: seq<Component>, n: nat, e: seq<V>, r: seq<V>, v: V, c: nat)
    requires Blocks(cs, n) && |e| == |cs| && |r| == n && c < |cs| && r == Expand(l, cs, n, e)
    ensures cs[c].lo < n
    ensures Folded(l, v, Outs(l, PerInstruction(cs, n), r), PerInstruction(cs, n)[cs[c].lo]) ==
            Folded(l, v, Outs(l, cs, e), cs[c])
  {
    hide Blocks, Outs;
    var it, ps := PerInstructionOf(cs, n), cs[c].preds;
    BlockBounds(cs, n, c);
    OwnerUnique(cs, n, cs[c].lo, c);
    forall i | 0 <= i < |ps|
      ensures ps[i] < |cs| && 0 < cs[ps[i]].hi <= n && Outs(l, it, r)[cs[ps[i]].hi - 1] == Outs(l, cs, e)[ps[i]]
    {
      ExitsAgree(l, cs, n, e, r, ps[i]);
    }
    FoldEnds(l, cs, v, Outs(l, it, r), Outs(l, cs, e), ps, |ps|);
  }

  ghost function PerInstructionOf(cs: seq<Component>, n: nat): seq<Component>
    requires Blocks(cs, n)
  {
    PerInstruction(cs, n)
  }

  lemma BlockBounds(cs: seq<Component>, n: nat, c: nat)
    requires Blocks(cs, n) && c < |cs|
    ensures GraphOk(cs, n) && cs[c].lo < cs[c].hi <= n && forall j :: 0 <= j < |cs[c].preds| ==> cs[c].preds[j] < |cs|
  {
    BoundsFrom(cs, n, c);
    assert ComponentOk(cs, c);
  }

  /** A solution for the blocks gives one for the instructions. */
  lemma ExpandEntry<V(!new)>(l: Lattice<V>, cs: seq<Component>, n: nat, ev: V, e: seq<V>, c: nat)
    requires Lawful(l) && Blocks(cs, n) && Solves(l, cs, ev, e) && c < |cs|
    ensures cs[c].lo < n
    ensures var it, r, k := PerInstruction(cs, n), Expand(l, cs, n, e), cs[c].lo;
            r[k] == Folded(l, Start(l, ev, k), Outs(l, it, r), it[k])
  {
    hide Lawful, Outs, Folded, Blocks, PerInstruction;
    BlockBounds(cs, n, c);
    OwnerUnique(cs, n, cs[c].lo, c);
    EntryAgrees(l, cs, n, e, Expand(l, cs, n, e), Start(l, ev, cs[c].lo), c);
    StartsAgree(l, cs, n, ev, c);
  }

  lemma InnerValue<V>(l: Lattice<V>, cs: seq<Component>, n: nat, e: seq<V>, c: nat, k: nat)
    requires GraphOk(cs, n) && |e| == |cs| && c < |cs| && cs[c].lo < k < cs[c].hi && k < n
    ensures var it, r := PerInstruction(cs, n), Expand(l, cs, n, e);
            it[k].preds == [k - 1] && Outs(l, it, r)[k - 1] == r[k]
  {
    hide GraphOk, OwnerOf;
    var it, r := PerInstruction(cs, n), Expand(l, cs, n, e);
    OwnerUnique(cs, n, k, c);
    OwnerUnique(cs, n, k - 1, c);
    OneInstruction(l, k - 1, r[k - 1]);
    assert it[k - 1].lo == k - 1 && it[k - 1].hi == k;
  }

  lemma ExpandInner<V(!new)>(l: Lattice<V>, cs: seq<Component>, n: nat, ev: V, e: seq<V>, c: nat, k: nat)
    requires Lawful(l) && GraphOk(cs, n) && |e| == |cs| && AllIn(l, e) && c < |cs| && cs[c].lo < k < cs[c].hi && k < n
    ensures var it, r := PerInstruction(cs, n), Expand(l, cs, n, e);
            r[k] == Folded(l, Start(l, ev, k), Outs(l, it, r), it[k])
  {
    hide Lawful, GraphOk, Outs, AllIn, Fold, PerInstruction, Expand;
    var it, r := PerInstruction(cs, n), Expand(l, cs, n, e);
    InnerValue(l, cs, n, e, c, k);
    TraceInAll(l, cs, n, e, r, it);
    OneFold(l, Outs(l, it, r), k - 1);
  }

  lemma ExpandSolves<V(!new)>(l: Lattice<V>, cs: seq<Component>, n: nat, ev: V, e: seq<V>)
    requires Lawful(l) && Blocks(cs, n) && Solves(l, cs, ev, e)
    ensures Solves(l, PerInstruction(cs, n), ev, Expand(l, cs, n, e))
  {
    hide Lawful, Folded, Outs;
    var it, r := PerInstruction(cs, n), Expand(l, cs, n, e);
    forall k | 0 <= k < n
      ensures r[k] in l.carrier && r[k] == Folded(l, Start(l, ev, k), Outs(l, it, r), it[k])
    {
      var c := OwnerOf(cs, n, k);
      TraceIn(l, cs[c].lo, k, e[c]);
      if k == cs[c].lo {
        ExpandEntry(l, cs, n, ev, e, c);
      } else {
        ExpandInner(l, cs, n, ev, e, c, k);
      }
    }
  }

  lemma StartsAgree<V>(l: Lattice<V>, cs: seq<Component>, n: nat, ev: V, c: nat)
    requires GraphOk(cs, n) && c < |cs|
    ensures Start(l, ev, c) == Start(l, ev, cs[c].lo)
  {
    BoundsFrom(cs, n, 0);
    assert ComponentOk(cs, 0);
    if c > 0 {
      assert cs[0].hi <= cs[c].lo;
    }
  }

  lemma TraceInAll<V(!new)>(l: Lattice<V>, cs: seq<Component>, n: nat, e: seq<V>, r: seq<V>, it: seq<Component>)
    requires Lawful(l) && GraphOk(cs, n) && |e| == |cs| && AllIn(l, e) && r == Expand(l, cs, n, e)
    requires it == PerInstruction(cs, n)
    ensures AllIn(l, Outs(l, it, r))
  {
    hide Lawful;
    forall k | 0 <= k < n
      ensures r[k] in l.carrier
    {
      TraceIn(l, cs[OwnerOf(cs, n, k)].lo, k, e[OwnerOf(cs, n, k)]);
    }
    OutsIn(l, it, r);
  }

  /** In a solution for the instructions, values inside a block follow from its entry value. */
  lemma {:induction false} InsideFollows<V(!new)>(l: Lattice<V>, cs: seq<Component>, n: nat, ev: V, r: seq<V>, c: nat,
                                                  k: nat)
    requires Lawful(l) && Blocks(cs, n) && Solves(l, PerInstruction(cs, n), ev, r) && c < |cs|
    requires cs[c].lo <= k < cs[c].hi <= n
    ensures r[k] == Trace(l, cs[c].lo, k, r[cs[c].lo])
    decreases k
  {
    hide Lawful, Solves, GraphOk;
    if k > cs[c].lo {
      InsideFollows(l, cs, n, ev, r, c, k - 1);
      InsideStep(l, cs, n, ev, r, c, k);
    }
  }

  lemma InsideStep<V(!new)>(l: Lattice<V>, cs: seq<Component>, n: nat, ev: V, r: seq<V>, c: nat, k: nat)
    requires Lawful(l) && Blocks(cs, n) && Solves(l, PerInstruction(cs, n), ev, r) && c < |cs|
    requires cs[c].lo < k < cs[c].hi <= n
    ensures r[k] == l.transfer(k - 1, r[k - 1])
  {
    hide Lawful, GraphOk, Solves;
    OwnerUnique(cs, n, k, c);
    StepEquation(l, PerInstruction(cs, n), ev, r, k);
  }

  lemma StepEquation<V(!new)>(l: Lattice<V>, it: seq<Component>, ev: V, r: seq<V>, k: nat)
    requires Lawful(l) && Solves(l, it, ev, r) && 0 < k < |it| && it[k].preds == [k - 1] && it[k - 1].lo == k - 1
    requires it[k - 1].hi == k
    ensures |r| == |it| && r[k] == l.transfer(k - 1, r[k - 1])
  {
    hide Lawful;
    assert r[k] == Folded(l, Start(l, ev, k), Outs(l, it, r), it[k]);
    OneInstruction(l, k - 1, r[k - 1]);
    OutsIn(l, it, r);
    OneFold(l, Outs(l, it, r), k - 1);
  }

  lemma ContractSolves<V(!new)>(l: Lattice<V>, cs: seq<Component>, n: nat, ev: V, r: seq<V>)
    requires Lawful(l) && Blocks(cs, n) && Solves(l, PerInstruction(cs, n), ev, r) && Sized(cs, n, r)
    ensures Solves(l, cs, ev, Contract(cs, n, r)) && Expand(l, cs, n, Contract(cs, n, r)) == r
  {
    hide Lawful;
    var e := Contract(cs, n, r);
    forall k | 0 <= k < n
      ensures Expand(l, cs, n, e)[k] == r[k]
    {
      InsideFollows(l, cs, n, ev, r, OwnerOf(cs, n, k), k);
    }
    assert Expand(l, cs, n, e) == r;
    forall c | 0 <= c < |cs|
      ensures e[c] in l.carrier && e[c] == Folded(l, Start(l, ev, c), Outs(l, cs, e), cs[c])
    {
      EntryAgrees(l, cs, n, e, r, Start(l, ev, c), c);
      StartsAgree(l, cs, n, ev, c);
    }
  }

  /** The greatest solution for the instructions is the expansion of the greatest one for the blocks. */
  lemma InstructionsAgreeWithBlocks<V(!new)>(l: Lattice<V>, cs: seq<Component>, n: nat, ev: V, e: seq<V>, r: seq<V>)
    requires Lawful(l) && Blocks(cs, n) && Greatest(l, cs, ev, e) && Greatest(l, PerInstruction(cs, n), ev, r)
    requires Sized(cs, n, r)
    ensures r == Expand(l, cs, n, e)
  {
    hide Lawful, Solves, Blocks, Expand, Contract;
    SolutionSize(l, cs, ev, e);
    BlocksOk(cs, n);
    ExpandSolves(l, cs, n, ev, e);
    ContractSolves(l, cs, n, ev, r);
    var f := Contract(cs, n, r);
    assert AllLe(l, f, e);
    ExpandMonotone(l, cs, n, f, e);
    forall k | 0 <= k < n
      ensures r[k] == Expand(l, cs, n, e)[k]
    {
      LeAntisym(l, r[k], Expand(l, cs, n, e)[k]);
    }
  }

  lemma BlocksOk(cs: seq<Component>, n: nat)
    requires Blocks(cs, n)
    ensures GraphOk(cs, n)
  {
  }

  lemma SolutionSize<V(!new)>(l: Lattice<V>, cs: seq<Component>, ev: V, e: seq<V>)
    requires Solves(l, cs, ev, e)
    ensures |e| == |cs|
  {
  }

  lemma ExpandMonotone<V(!new)>(l: Lattice<V>, cs: seq<Component>, n: nat, f: seq<V>, e: seq<V>)
    requires Lawful(l) && GraphOk(cs, n) && |e| == |cs| && AllLe(l, f, e)
    ensures AllLe(l, Expand(l, cs, n, f), Expand(l, cs, n, e))
  {
    hide Lawful;
    forall k | 0 <= k < n
      ensures Le(l, Expand(l, cs, n, f)[k], Expand(l, cs, n, e)[k])
    {
      var c := OwnerOf(cs, n, k);
      TraceMonotone(l, cs[c].lo, k, f[c], e[c]);
    }
  }

  /** Both modes of a run, from empty caches, give every instruction the same values. */
  lemma ModesAgree<V(!new)>(l: Lattice<V>, cs: seq<Component>, n: nat, ev: V, e: seq<V>, ins: seq<V>, outs: seq<V>,
                            r: seq<V>, ins': seq<V>, outs': seq<V>)
    requires Lawful(l) && Blocks(cs, n) && |ins| == |outs| == |ins'| == |outs'| == n
    requires |e| == |cs| && Greatest(l, cs, ev, e) && AllRight(l, cs, e, ins, outs)
    requires |r| == n && Greatest(l, PerInstruction(cs, n), ev, r) && AllRight(l, PerInstruction(cs, n), r, ins', outs')
    ensures ins == ins' && outs == outs'
  {
    hide Lawful, Greatest;
    Bounds(cs, n, r);
    InstructionsAgreeWithBlocks(l, cs, n, ev, e, r);
    var it := PerInstruction(cs, n);
    forall k | 0 <= k < n
      ensures ins[k] == ins'[k] && outs[k] == outs'[k]
    {
      var c := OwnerOf(cs, n, k);
      RightAt(l, cs[c], e[c], ins, outs, k);
      assert Right(l, it[k], r[k], ins', outs');
      RightAt(l, it[k], r[k], ins', outs', k);
      OneInstruction(l, k, r[k]);
    }
  }
}
