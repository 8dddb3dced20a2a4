/** Which pointers keep their meaning under transient execution: an intersection
    analysis on the dataflow engine, and what it finds said along the flow of control. */
module TransientAA {
  import opened Dataflow
  import opened DataflowTheorems

  datatype Operand = Constant(id: nat) | Result(inst: nat)

  /** Instructions as the analysis sees them; `Other` is any instruction whose result is no pointer. */
  datatype Inst =
    | Load(pointer: bool)
    | Call(pointer: bool)
    | Alloca
    | Gep(base: Operand, indices: seq<Operand>)
    | BitCast(op: Operand, pointers: bool)
    | Other

  predicate IsPointer(i: Inst) {
    match i
    case Load(p) => p
    case Call(p) => p
    case Alloca => true
    case Gep(_, _) => true
    case BitCast(_, p) => p
    case Other => false
  }

  predicate IsConstant(o: Operand) {
    o.Constant?
  }

  predicate Holds(v: set<nat>, o: Operand) {
    o.Result? && o.inst in v
  }

  /** How instruction `k` changes the set of pointers that keep their meaning. */
  function Keep(code: seq<Inst>, k: nat, v: set<nat>): set<nat> {
    if k >= |code| then v
    else match code[k]
    case Load(_) => v - {k}
    case Call(_) => v - {k}
    case Alloca => v + {k}
    case Gep(base, indices) =>
      if Holds(v, base) && forall o :: o in [base] + indices ==> IsConstant(o) then v + {k} else v - {k}
    case BitCast(op, pointers) => if !pointers then v else if Holds(v, op) then v + {k} else v - {k}
    case Other => v
  }

  function AllPointers(code: seq<Inst>): set<nat> {
    set k | 0 <= k < |code| && IsPointer(code[k])
  }

  function Intersect(a: set<nat>, b: set<nat>): set<nat> {
    a * b
  }

  function Aliases(code: seq<Inst>): Lattice<set<nat>> {
    Lattice((set s: set<nat> | s <= AllPointers(code)), AllPointers(code), Intersect,
            (k: nat, v: set<nat>) => Keep(code, k, v))
  }

  lemma IntersectLaws(top: set<nat>, a: set<nat>, b: set<nat>, c: set<nat>)
    requires a <= top && b <= top && c <= top
    ensures Intersect(a, b) <= top && Intersect(a, b) == Intersect(b, a)
    ensures Intersect(a, Intersect(b, c)) == Intersect(Intersect(a, b), c)
    ensures Intersect(a, a) == a && Intersect(top, a) == a
  {
    assert a * b == b * a && a * (b * c) == (a * b) * c && top * a == a;
  }

  /** The analysis is a finite meet-semilattice with a monotone transfer. */
  lemma AliasesLawful(code: seq<Inst>)
    ensures Lawful(Aliases(code))
  {
    hide Keep, AllPointers, Intersect;
    var l, top := Aliases(code), AllPointers(code);
    forall a, b | a in l.carrier && b in l.carrier
      ensures l.meet(a, b) in l.carrier && l.meet(a, b) == l.meet(b, a)
    {
      IntersectLaws(top, a, b, a);
    }
    forall a, b, c | a in l.carrier && b in l.carrier && c in l.carrier
      ensures l.meet(a, l.meet(b, c)) == l.meet(l.meet(a, b), c)
    {
      IntersectLaws(top, a, b, c);
    }
    forall a | a in l.carrier
      ensures l.meet(a, a) == a && l.meet(l.top, a) == a
    {
      IntersectLaws(top, a, a, a);
    }
    forall i, a | a in l.carrier
      ensures l.transfer(i, a) in l.carrier
    {
      KeepBounded(code, i, a);
    }
    forall i, a, b | Le(l, a, b)
      ensures Le(l, l.transfer(i, a), l.transfer(i, b))
    {
      KeepBounded(code, i, a);
      KeepBounded(code, i, b);
      KeepMonotone(code, i, a, b);
    }
  }

  lemma KeepBounded(code: seq<Inst>, k: nat, v: set<nat>)
    requires v <= AllPointers(code)
    ensures Keep(code, k, v) <= AllPointers(code)
  {
  }

  lemma KeepMonotone(code: seq<Inst>, k: nat, a: set<nat>, b: set<nat>)
    requires Intersect(a, b) == a
    ensures Intersect(Keep(code, k, a), Keep(code, k, b)) == Keep(code, k, a)
  {
    assert a <= b;
    assert Keep(code, k, a) <= Keep(code, k, b);
  }

  /** An address computation is never kept: its base would have to be both a constant and a tracked result. */
  lemma GepNeverKept(code: seq<Inst>, k: nat, v: set<nat>)
    requires k < |code| && code[k].Gep?
    ensures k !in Keep(code, k, v)
  {
    assert code[k].base in [code[k].base] + code[k].indices;
  }

  /** The pointers that every instruction leaves kept. */
  method Valid(code: seq<Inst>, outs: seq<set<nat>>) returns (valid: set<nat>)
    ensures valid == set p | p in AllPointers(code) && forall k :: 0 <= k < |outs| ==> p in outs[k]
  {
    valid := AllPointers(code);
    for k := 0 to |outs|
      invariant valid == set p | p in AllPointers(code) && forall i :: 0 <= i < k ==> p in outs[i]
    {
      valid := valid * outs[k];
    }
  }

  lemma {:induction false} SinglePlace(cs: seq<Component>, n: nat, c: nat)
    requires GraphOk(cs, n) && (forall k :: 0 <= k < |cs| ==> cs[k].hi == cs[k].lo + 1) && c < |cs|
    ensures cs[c].lo == c
    decreases c
  {
    if c > 0 {
      SinglePlace(cs, n, c - 1);
      assert ComponentOk(cs, c - 1);
    }
  }

  lemma SingleOuts(code: seq<Inst>, cs: seq<Component>, e: seq<set<nat>>, ins: seq<set<nat>>, outs: seq<set<nat>>)
    requires GraphOk(cs, |code|) && (forall k :: 0 <= k < |cs| ==> cs[k].hi == cs[k].lo + 1)
    requires |e| == |cs| && |ins| == |outs| == |code|
    requires Settled(Aliases(code), cs, AllPointers(code), map[], e, ins, outs)
    ensures |e| == |code| && forall k :: 0 <= k < |e| ==> outs[k] == Keep(code, k, e[k])
  {
    hide Keep, Settled;
    var l := Aliases(code);
    EmptyCacheHarmless(l, cs, AllPointers(code), e, ins, outs);
    SinglePlace(cs, |code|, |cs| - 1);
    forall k | 0 <= k < |e|
      ensures outs[k] == Keep(code, k, e[k])
    {
      SinglePlace(cs, |code|, k);
      assert Right(l, cs[k], e[k], ins, outs);
      RightAt(l, cs[k], e[k], ins, outs, k);
      OneInstruction(l, k, e[k]);
    }
  }

  // ---------------------------------------------------------------- one instruction

  /** What an instruction leaves of the pointers: it decides about its own result only. An allocation keeps it,
      a load, a call and an address computation drop it, and a cast of pointers keeps it if it keeps its operand. */
  lemma KeepIs(code: seq<Inst>, k: nat, v: set<nat>, p: nat)
    requires k < |code|
    ensures p != k ==> (p in Keep(code, k, v) <==> p in v)
    ensures k in Keep(code, k, v) <==>
            match code[k]
            case Alloca => true
            case Load(_) => false
            case Call(_) => false
            case Gep(_, _) => false
            case BitCast(op, pointers) => if pointers then op.Result? && op.inst in v else k in v
            case Other => k in v
  {
    if code[k].Gep? {
      GepNeverKept(code, k, v);
    }
  }

  // ---------------------------------------------------------------- along the flow

  /** One instruction a component. */
  ghost predicate Single(cs: seq<Component>, n: nat) {
    GraphOk(cs, n) && forall k :: 0 <= k < |cs| ==> cs[k].hi == cs[k].lo + 1
  }

  ghost predicate Hop(cs: seq<Component>, a: nat, b: nat) {
    b < |cs| && a in cs[b].preds
  }

  ghost predicate FlowPath(cs: seq<Component>, w: seq<nat>) {
    |w| >= 2 && forall i :: 0 <= i < |w| - 1 ==> Hop(cs, w[i], w[i + 1])
  }

  /** Control can get from `a` to `b` in one step or more. */
  ghost predicate Flows(cs: seq<Component>, a: nat, b: nat) {
    exists w :: FlowPath(cs, w) && w[0] == a && w[|w| - 1] == b
  }

  lemma FlowsOn(cs: seq<Component>, a: nat, b: nat, c: nat)
    requires (a == b || Flows(cs, a, b)) && Hop(cs, b, c)
    ensures Flows(cs, a, c)
  {
    if a == b {
      assert FlowPath(cs, [b, c]);
    } else {
      var w :| FlowPath(cs, w) && w[0] == a && w[|w| - 1] == b;
      var u := w + [c];
      forall i | 0 <= i < |u| - 1
        ensures Hop(cs, u[i], u[i + 1])
      {
        assert i < |w| - 1 ==> Hop(cs, w[i], w[i + 1]);
      }
      assert FlowPath(cs, u) && u[0] == a && u[|u| - 1] == c;
    }
  }

  lemma {:induction false} FoldHas(code: seq<Inst>, v: set<nat>, x: seq<set<nat>>, ps: seq<nat>, j: nat, q: nat)
    requires j <= |ps| && forall i :: 0 <= i < |ps| ==> ps[i] < |x|
    ensures q in Fold(Aliases(code), v, x, ps, j) <==> q in v && forall i :: 0 <= i < j ==> q in x[ps[i]]
  {
    hide Keep, AllPointers;
    if j > 0 {
      FoldHas(code, v, x, ps, j - 1, q);
    }
  }

  /** What comes out of an instruction. */
  lemma SingleOut(code: seq<Inst>, cs: seq<Component>, k: nat, v: set<nat>)
    requires Single(cs, |code|) && k < |cs|
    ensures |cs| == |code| && Out(Aliases(code), cs[k], v) == Keep(code, k, v)
  {
    hide Keep, GraphOk, AllPointers;
    SinglePlace(cs, |code|, k);
    SinglePlace(cs, |code|, |cs| - 1);
    LastEnds(cs, |code|);
    OneInstruction(Aliases(code), k, v);
  }

  lemma LastEnds(cs: seq<Component>, n: nat)
    requires GraphOk(cs, n)
    ensures |cs| > 0 && cs[|cs| - 1].hi == n
  {
  }

  /** What the equations ask of an instruction's entry: a pointer that every predecessor leaves. */
  ghost predicate LeftBy(code: seq<Inst>, cs: seq<Component>, e: seq<set<nat>>, k: nat, q: nat)
    requires |e| == |cs|
  {
    q in AllPointers(code) && forall j: nat :: j < |cs| && Hop(cs, j, k) ==> q in Keep(code, j, e[j])
  }

  lemma FoldedHas(code: seq<Inst>, cs: seq<Component>, e: seq<set<nat>>, k: nat, q: nat)
    requires Single(cs, |code|) && |e| == |cs| && k < |cs|
    ensures var l := Aliases(code);
            q in Folded(l, Start(l, AllPointers(code), k), Outs(l, cs, e), cs[k]) <==> LeftBy(code, cs, e, k, q)
  {
    hide Keep, AllPointers;
    var l := Aliases(code);
    var x, ps := Outs(l, cs, e), cs[k].preds;
    assert ComponentOk(cs, k);
    FoldHas(code, AllPointers(code), x, ps, |ps|, q);
    forall j: nat | j < |cs|
      ensures x[j] == Keep(code, j, e[j])
    {
      SingleOut(code, cs, j, e[j]);
    }
    assert forall i :: 0 <= i < |ps| ==> Hop(cs, ps[i], k);
  }

  /** Where the result of `q` is dropped at `q`, it is missing wherever control gets to from there. */
  lemma {:induction false} MissingAlong(code: seq<Inst>, cs: seq<Component>, e: seq<set<nat>>, w: seq<nat>)
    requires Single(cs, |code|) && Solves(Aliases(code), cs, AllPointers(code), e) && FlowPath(cs, w)
    requires w[0] < |cs| && w[0] !in Keep(code, w[0], e[w[0]])
    ensures w[|w| - 1] < |cs| && w[0] !in e[w[|w| - 1]]
    decreases |w|
  {
    hide Keep, AllPointers, Folded;
    var n := |w| - 1;
    assert Hop(cs, w[n - 1], w[n - 1 + 1]);
    SingleOut(code, cs, 0, {});
    if n > 1 {
      var u := w[..n];
      assert forall i :: 0 <= i < |u| - 1 ==> Hop(cs, w[i], w[i + 1]);
      MissingAlong(code, cs, e, u);
      KeepIs(code, w[n - 1], e[w[n - 1]], w[0]);
    }
    FoldedHas(code, cs, e, w[n], w[0]);
  }

  // ---------------------------------------------------------------- nothing else is lost

  /** One more pointer, at the instructions that `q`'s own instruction does not spoil. */
  ghost function Grant(cs: seq<Component>, e: seq<set<nat>>, q: nat, kept: bool): (s: seq<set<nat>>)
    ensures |s| == |e|
    ensures forall k :: 0 <= k < |e| ==> s[k] == if kept || !Flows(cs, q, k) then e[k] + {q} else e[k]
  {
    seq(|e|, k requires 0 <= k < |e| => if kept || !Flows(cs, q, k) then e[k] + {q} else e[k])
  }

  lemma GrantHolds(code: seq<Inst>, cs: seq<Component>, e: seq<set<nat>>, q: nat, k: nat, r: nat)
    requires Single(cs, |code|) && Solves(Aliases(code), cs, AllPointers(code), e) && q < |cs| && q in AllPointers(code)
    requires k < |cs| && r in Grant(cs, e, q, q in Keep(code, q, e[q]))[k]
    ensures LeftBy(code, cs, Grant(cs, e, q, q in Keep(code, q, e[q])), k, r)
  {
    hide Keep, AllPointers, Folded, Flows, GraphOk;
    var kept := q in Keep(code, q, e[q]);
    var s := Grant(cs, e, q, kept);
    SingleOut(code, cs, k, {});
    FoldedHas(code, cs, e, k, r);
    forall j: nat | j < |cs| && Hop(cs, j, k)
      ensures r in Keep(code, j, s[j])
    {
      KeepGrows(code, j, e[j], s[j]);
      if r == q && r !in e[k] {
        if !kept && (j == q || Flows(cs, q, j)) {
          FlowsOn(cs, q, j, k);
          assert false;
        }
        KeepIs(code, j, s[j], q);
      }
    }
  }

  lemma KeepGrows(code: seq<Inst>, k: nat, a: set<nat>, b: set<nat>)
    requires a <= b
    ensures Keep(code, k, a) <= Keep(code, k, b)
  {
  }

  lemma GrantBelow(code: seq<Inst>, cs: seq<Component>, e: seq<set<nat>>, q: nat)
    requires Single(cs, |code|) && Greatest(Aliases(code), cs, AllPointers(code), e) && q in AllPointers(code)
    ensures q < |cs| && forall k :: 0 <= k < |cs| && (q in Keep(code, q, e[q]) || !Flows(cs, q, k)) ==> q in e[k]
  {
    hide Keep, Folded, Flows, Lawful, Greatest, GraphOk;
    var l, ev := Aliases(code), AllPointers(code);
    AliasesLawful(code);
    GreatestSolves(l, cs, ev, e);
    LastEnds(cs, |code|);
    SingleOut(code, cs, 0, {});
    var s := Grant(cs, e, q, q in Keep(code, q, e[q]));
    forall k | 0 <= k < |cs|
      ensures Le(l, s[k], Folded(l, Start(l, ev, k), Outs(l, cs, s), cs[k]))
    {
      var f := Folded(l, Start(l, ev, k), Outs(l, cs, s), cs[k]);
      forall r: nat
        ensures r in f <==> LeftBy(code, cs, s, k, r)
        ensures r in s[k] ==> r in f
      {
        FoldedHas(code, cs, s, k, r);
        if r in s[k] {
          GrantHolds(code, cs, e, q, k, r);
        }
      }
      assert s[k] <= f <= ev;
      assert Intersect(s[k], f) == s[k];
    }
    BelowGreatest(l, cs, ev, e, s);
    forall k | 0 <= k < |cs| && q in s[k]
      ensures q in e[k]
    {
      assert Le(l, s[k], e[k]);
    }
  }

  /** A pointer is missing before an instruction exactly if its own instruction drops it and control can get from
      there to here. */
  lemma EntryIs(code: seq<Inst>, cs: seq<Component>, e: seq<set<nat>>, q: nat, k: nat)
    requires Single(cs, |code|) && Greatest(Aliases(code), cs, AllPointers(code), e) && k < |cs|
    ensures |e| == |cs| == |code|
    ensures q in e[k] <==> q in AllPointers(code) && (q in Keep(code, q, e[q]) || !Flows(cs, q, k))
  {
    hide Keep, Folded, GraphOk, Lawful;
    SingleOut(code, cs, k, {});
    FoldedHas(code, cs, e, k, q);
    if q in AllPointers(code) {
      GrantBelow(code, cs, e, q);
      if q !in Keep(code, q, e[q]) && Flows(cs, q, k) {
        var w :| FlowPath(cs, w) && w[0] == q && w[|w| - 1] == k;
        MissingAlong(code, cs, e, w);
      }
    }
  }

  /** A pointer that its own instruction keeps is kept everywhere. */
  lemma KeptEverywhere(code: seq<Inst>, cs: seq<Component>, e: seq<set<nat>>, p: nat)
    requires Single(cs, |code|) && Greatest(Aliases(code), cs, AllPointers(code), e) && p in AllPointers(code)
    ensures |e| == |code| && p < |code|
    ensures (forall k :: 0 <= k < |e| ==> p in Keep(code, k, e[k])) <==> p in Keep(code, p, e[p])
  {
    hide Keep, Greatest, Single, Flows;
    PointerInCode(code, p);
    SingleNonempty(cs, |code|);
    EntryIs(code, cs, e, p, 0);
    if p in Keep(code, p, e[p]) {
      forall k | 0 <= k < |e|
        ensures p in Keep(code, k, e[k])
      {
        EntryIs(code, cs, e, p, k);
        KeepIs(code, k, e[k], p);
      }
    }
  }

  lemma SingleNonempty(cs: seq<Component>, n: nat)
    requires Single(cs, n)
    ensures |cs| > 0
  {
  }

  lemma PointerInCode(code: seq<Inst>, p: nat)
    requires p in AllPointers(code)
    ensures p < |code| && IsPointer(code[p])
  {
  }

  /** What the analysis finds: the allocations, and the casts of pointers whose operand's result is found too or
      has not been computed when control gets there. */
  ghost predicate Found(code: seq<Inst>, cs: seq<Component>, valid: set<nat>, p: nat) {
    p < |code| &&
    match code[p]
    case Alloca => true
    case BitCast(Result(q), true) =>
      q < |code| && (q in valid || (HasPointer(code[q]) && !Flows(cs, q, p)))
    case _ => false
  }

  /** The instruction's result is a pointer. */
  ghost predicate HasPointer(i: Inst) {
    i.Alloca? || i.Gep? || (i.Load? && i.pointer) || (i.Call? && i.pointer) || (i.BitCast? && i.pointers)
  }

  lemma ValidIs(code: seq<Inst>, cs: seq<Component>, e: seq<set<nat>>, valid: set<nat>, p: nat)
    requires Single(cs, |code|) && Greatest(Aliases(code), cs, AllPointers(code), e) && |e| == |code|
    requires valid == set p | p in AllPointers(code) && forall k :: 0 <= k < |e| ==> p in Keep(code, k, e[k])
    ensures p in valid <==> Found(code, cs, valid, p)
  {
    hide Keep, Greatest, Single, Flows;
    forall q | q in AllPointers(code)
      ensures q < |code| && (q in valid <==> q in Keep(code, q, e[q]))
    {
      KeptEverywhere(code, cs, e, q);
    }
    if p < |code| {
      KeepIs(code, p, e[p], p);
      if code[p].BitCast? && code[p].op.Result? {
        SingleSize(cs, |code|);
        EntryIs(code, cs, e, code[p].op.inst, p);
      }
    }
  }

  lemma SingleSize(cs: seq<Component>, n: nat)
    requires Single(cs, n)
    ensures |cs| == n
  {
    SinglePlace(cs, n, |cs| - 1);
  }

  /** The analysis of a whole function, instruction by instruction. It finds the allocations and the casts of what
      it finds; no load, call or address computation. */
  method TransientAliases(code: seq<Inst>, cs: seq<Component>) returns (valid: set<nat>, ghost e: seq<set<nat>>)
    requires GraphOk(cs, |code|) && forall k :: 0 <= k < |cs| ==> cs[k].hi == cs[k].lo + 1
    ensures |e| == |code| && Greatest(Aliases(code), cs, AllPointers(code), e)
    ensures valid == set p | p in AllPointers(code) && forall k :: 0 <= k < |e| ==> p in Keep(code, k, e[k])
    ensures forall p: nat :: p in valid <==> Found(code, cs, valid, p)
  {
    hide Lawful, Greatest, Settled, Keep, GraphOk, Found;
    AliasesLawful(code);
    var g := new Graph(Aliases(code), cs, |code|);
    var ins, outs, x;
    ins, outs, x, e := g.Transfer(AllPointers(code));
    SingleOuts(code, cs, e, ins, outs);
    valid := Valid(code, outs);
    forall p: nat
      ensures p in valid <==> Found(code, cs, valid, p)
    {
      ValidIs(code, cs, e, valid, p);
    }
  }
}
