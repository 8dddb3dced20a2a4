/** The counters of the unrolled machine, read off a path: along a block path of one
    function, each loop's counter is the number of times control has come back to the
    loop's header since it last entered the loop. Hence a path is kept by unrolling
    exactly when no uninterrupted stay in a loop comes back to its header more often
    than the number of unrolls. */
module UnrollCounts {
  import opened Program
  import opened UnrollSpec
  import opened UnrollTheorems

  ghost predicate BlockPath(fn: Function, l: Loop, q: seq<Block>) {
    && |q| > 0
    && (forall i :: 0 <= i < |q| ==> q[i] in l.blocks)
    && (forall i :: 0 <= i < |q| - 1 ==> Transfer(fn, q, i))
  }

  ghost predicate Transfer(fn: Function, q: seq<Block>, i: nat)
    requires i + 1 < |q|
  {
    q[i] in fn.succs && q[i + 1] in fn.succs[q[i]]
  }

  ghost predicate PathIn(fn: Function, rank: map<Block, nat>, l: Loop, q: seq<Block>) {
    WellNested(fn, rank, l) && BlockPath(fn, l, q) && SubIndex(l.subs, q[0]) < 0
  }

  /** The path has counters that the machine with `k` unrolls accepts. */
  ghost predicate Kept(k: nat, l: Loop, q: seq<Block>, cs: seq<seq<nat>>) {
    && |cs| == |q| > 0
    && cs[0] == Fresh(l, q[0])
    && (forall i :: 0 <= i < |q| ==> CountersOk(k, l, q[i], cs[i]))
    && (forall i :: 0 <= i < |q| - 1 ==> MoveWithin(k, l, q[i], cs[i], q[i + 1], cs[i + 1]))
  }

  /** `s` is a loop inside `l`, at any depth. */
  ghost predicate Nested(l: Loop, s: Loop)
    decreases l
  {
    exists i :: 0 <= i < |l.subs| && (s == l.subs[i] || Nested(l.subs[i], s))
  }

  /** How often `q[i + 1..j + 1]` arrives at `h`. */
  ghost function Returns(q: seq<Block>, i: nat, j: nat, h: Block): nat
    requires i <= j < |q|
    decreases j - i
  {
    if i == j then 0 else Returns(q, i, j - 1, h) + (if q[j] == h then 1 else 0)
  }

  ghost predicate StaysIn(q: seq<Block>, i: nat, j: nat, s: Loop)
    requires i <= j < |q|
  {
    forall t :: i <= t <= j ==> q[t] in s.blocks
  }

  /** No uninterrupted stay in a loop inside `l` comes back to its header more than `k` times. */
  ghost predicate BoundedStays(k: nat, l: Loop, q: seq<Block>) {
    forall s, i: nat, j: nat :: Nested(l, s) && i <= j < |q| && StaysIn(q, i, j, s) ==> Returns(q, i, j, s.header) <= k
  }

  // ---------------------------------------------------------------- counters along a path

  /** The counters after `n` transfers, without a bound. */
  ghost function CountersAt(l: Loop, q: seq<Block>, n: nat): seq<nat>
    requires n < |q|
    decreases n
  {
    if n == 0 then Fresh(l, q[0]) else NextCounters(l, q[n - 1], CountersAt(l, q, n - 1), q[n])
  }

  ghost predicate AtMost(k: nat, c: seq<nat>) {
    forall i :: 0 <= i < |c| ==> c[i] <= k
  }

  lemma AtMostTail(k: nat, c: seq<nat>)
    requires |c| >= 1
    ensures AtMost(k, c) <==> c[0] <= k && AtMost(k, c[1..])
  {
    assert forall j :: 1 <= j < |c| ==> c[j] == c[1..][j - 1];
    assert AtMost(k, c) ==> forall j :: 0 <= j < |c[1..]| ==> c[1..][j] == c[j + 1];
  }

  ghost predicate AllAtMost(k: nat, l: Loop, q: seq<Block>) {
    forall n :: 0 <= n < |q| ==> AtMost(k, CountersAt(l, q, n))
  }

  /** Counters have the right shape: one for each loop between `l` and `b`. */
  ghost predicate Shaped(l: Loop, b: Block, c: seq<nat>)
    decreases l
  {
    var i := SubIndex(l.subs, b);
    if i >= 0 then |c| >= 1 && Shaped(l.subs[i], b, c[1..]) else c == []
  }

  lemma {:induction false} ShapedBounded(k: nat, l: Loop, b: Block, c: seq<nat>)
    ensures CountersOk(k, l, b, c) <==> Shaped(l, b, c) && AtMost(k, c)
    decreases l
  {
    var i := SubIndex(l.subs, b);
    if i >= 0 && |c| >= 1 {
      ShapedBounded(k, l.subs[i], b, c[1..]);
      AtMostTail(k, c);
    }
  }

  lemma {:induction false} FreshShaped(fn: Function, rank: map<Block, nat>, l: Loop, b: Block)
    requires WellNested(fn, rank, l)
    requires SubIndex(l.subs, b) >= 0 ==> b == l.subs[SubIndex(l.subs, b)].header
    ensures Shaped(l, b, Fresh(l, b)) && AtMost(0, Fresh(l, b))
  {
    var i := SubIndex(l.subs, b);
    if i >= 0 {
      assert WellNested(fn, rank, l.subs[i]);
      assert [0][1..] == [];
    }
  }

  lemma {:induction false} NextShaped(fn: Function, rank: map<Block, nat>, l: Loop, b: Block, c: seq<nat>, d: Block)
    requires WellNested(fn, rank, l) && b in l.blocks && d in l.blocks && b in fn.succs && d in fn.succs[b]
    requires Shaped(l, b, c)
    ensures Shaped(l, d, NextCounters(l, b, c, d))
    decreases l
  {
    var i, i' := SubIndex(l.subs, b), SubIndex(l.subs, d);
    if i >= 0 && d in l.subs[i].blocks {
      assert i' == i;
      assert WellNested(fn, rank, l.subs[i]);
      if d == l.subs[i].header {
        assert [c[0] + 1][1..] == [];
      } else {
        NextShaped(fn, rank, l.subs[i], b, c[1..], d);
        var c' := NextCounters(l.subs[i], b, c[1..], d);
        assert ([c[0]] + c')[1..] == c';
      }
    } else {
      if i' >= 0 {
        assert IsLoop(fn, l.subs[i']);
      }
      FreshShaped(fn, rank, l, d);
    }
  }

  lemma {:induction false} AtShaped(fn: Function, rank: map<Block, nat>, l: Loop, q: seq<Block>, n: nat)
    requires PathIn(fn, rank, l, q) && n < |q|
    ensures Shaped(l, q[n], CountersAt(l, q, n))
    decreases n
  {
    if n > 0 {
      AtShaped(fn, rank, l, q, n - 1);
      assert Transfer(fn, q, n - 1);
      NextShaped(fn, rank, l, q[n - 1], CountersAt(l, q, n - 1), q[n]);
    }
  }

  /** A move is refused exactly when it would push a counter beyond `k`. */
  lemma {:induction false} RefusedBeyond(k: nat, l: Loop, b: Block, c: seq<nat>, d: Block)
    requires Shaped(l, b, c) && AtMost(k, c)
    ensures LastIteration(k, l, b, c, d) <==> !AtMost(k, NextCounters(l, b, c, d))
    decreases l
  {
    var i := SubIndex(l.subs, b);
    if i >= 0 && d in l.subs[i].blocks {
      if d == l.subs[i].header {
        var c' := [c[0] + 1];
        assert c'[0] == c[0] + 1;
        assert NextCounters(l, b, c, d) == c';
      } else {
        assert AtMost(k, c[1..]);
        RefusedBeyond(k, l.subs[i], b, c[1..], d);
        var t := NextCounters(l.subs[i], b, c[1..], d);
        var c' := [c[0]] + t;
        assert forall j :: 0 <= j < |t| ==> c'[j + 1] == t[j];
        assert AtMost(k, t) ==> AtMost(k, c');
        assert c'[1..] == t;
        AtMostTail(k, c');
      }
    }
  }

  lemma BoundedIsKept(fn: Function, rank: map<Block, nat>, k: nat, l: Loop, q: seq<Block>)
    requires PathIn(fn, rank, l, q) && AllAtMost(k, l, q)
    ensures exists cs :: Kept(k, l, q, cs)
  {
    hide WellNested, CountersAt, CountersOk, MoveWithin, NextCounters, LastIteration, Shaped, Fresh, AtMost;
    var cs := seq(|q|, n requires 0 <= n < |q| => CountersAt(l, q, n));
    forall n | 0 <= n < |q|
      ensures CountersOk(k, l, q[n], cs[n])
    {
      AtShaped(fn, rank, l, q, n);
      ShapedBounded(k, l, q[n], cs[n]);
    }
    forall n | 0 <= n < |q| - 1
      ensures MoveWithin(k, l, q[n], cs[n], q[n + 1], cs[n + 1])
    {
      AtShaped(fn, rank, l, q, n);
      StepIsNext(l, q, n);
      RefusedBeyond(k, l, q[n], cs[n], q[n + 1]);
      MoveKept(k, l, q[n], cs[n], q[n + 1], cs[n + 1]);
    }
    assert CountersAt(l, q, 0) == Fresh(l, q[0]) by {
      StepIsNext(l, q, 0);
    }
    assert Kept(k, l, q, cs);
  }

  lemma StepIsNext(l: Loop, q: seq<Block>, n: nat)
    requires n < |q|
    ensures CountersAt(l, q, 0) == Fresh(l, q[0])
    ensures n + 1 < |q| ==> CountersAt(l, q, n + 1) == NextCounters(l, q[n], CountersAt(l, q, n), q[n + 1])
  {
    hide NextCounters, Fresh;
  }

  /** A path is kept exactly when its counters stay at or below `k`. */
  lemma KeptIffBounded(fn: Function, rank: map<Block, nat>, k: nat, l: Loop, q: seq<Block>)
    requires PathIn(fn, rank, l, q)
    ensures (exists cs :: Kept(k, l, q, cs)) <==> AllAtMost(k, l, q)
  {
    hide WellNested, CountersAt, CountersOk, MoveWithin, Shaped, AtMost;
    if cs :| Kept(k, l, q, cs) {
      forall n | 0 <= n < |q|
        ensures AtMost(k, CountersAt(l, q, n))
      {
        KeptCounters(k, l, q, cs, n);
        ShapedBounded(k, l, q[n], cs[n]);
      }
    }
    if AllAtMost(k, l, q) {
      BoundedIsKept(fn, rank, k, l, q);
    }
  }

  lemma {:induction false} KeptCounters(k: nat, l: Loop, q: seq<Block>, cs: seq<seq<nat>>, n: nat)
    requires Kept(k, l, q, cs) && n < |q|
    ensures cs[n] == CountersAt(l, q, n)
    decreases n
  {
    if n > 0 {
      KeptCounters(k, l, q, cs, n - 1);
      assert MoveWithin(k, l, q[n - 1], cs[n - 1], q[n - 1 + 1], cs[n - 1 + 1]);
      MoveKept(k, l, q[n - 1], cs[n - 1], q[n], cs[n]);
    }
  }

  // ---------------------------------------------------------------- counters count returns

  /** Where the stay in `s` that is under way at `n` began. */
  ghost function Began(q: seq<Block>, s: Loop, n: nat): (st: nat)
    requires n < |q| && q[n] in s.blocks
    ensures st <= n && StaysIn(q, st, n, s) && (st == 0 || q[st - 1] !in s.blocks)
    decreases n
  {
    if n > 0 && q[n - 1] in s.blocks then Began(q, s, n - 1) else n
  }

  /** A counter is the number of returns during the stay, and the inner counters are
      those of the stay taken as a path of its own. */
  lemma {:induction false} CounterCounts(fn: Function, rank: map<Block, nat>, l: Loop, q: seq<Block>, i: nat, n: nat)
    requires PathIn(fn, rank, l, q)
    requires i < |l.subs| && n < |q| && q[n] in l.subs[i].blocks
    ensures var s, st := l.subs[i], Began(q, l.subs[i], n);
            && q[st] == s.header
            && |CountersAt(l, q, n)| >= 1
            && CountersAt(l, q, n)[0] == Returns(q, st, n, s.header)
            && CountersAt(l, q, n)[1..] == CountersAt(s, q[st..], n - st)
    decreases n
  {
    hide WellNested, BlockPath, NextCounters, Shaped;
    var s := l.subs[i];
    SubEntry(fn, rank, l, q, i, n);
    var c := CountersAt(l, q, n - 1);
    if q[n - 1] in s.blocks {
      CounterCounts(fn, rank, l, q, i, n - 1);
      var st := Began(q, s, n);
      SubEntry(fn, rank, l, q, i, n - 1);
      assert q[st..][n - st] == q[n] && q[st..][n - 1 - st] == q[n - 1];
      var inner := CountersAt(s, q[st..], n - 1 - st);
      assert CountersAt(s, q[st..], n - st) == NextCounters(s, q[n - 1], inner, q[n]);
      NextInside(l, i, q[n - 1], c, q[n]);
      if q[n] == s.header {
        HeaderCounters(fn, rank, s, q[n - 1], inner);
      }
    } else {
      assert SubIndex(l.subs, q[n - 1]) >= 0 ==> q[n] !in l.subs[SubIndex(l.subs, q[n - 1])].blocks by {
        SubsApart(fn, rank, l, i);
      }
      NextOutside(l, i, q[n - 1], c, q[n]);
      assert q[n..][0] == q[n] && Fresh(s, s.header) == [];
    }
  }

  /** A subloop is not where the path begins, and is entered at its header. */
  lemma SubEntry(fn: Function, rank: map<Block, nat>, l: Loop, q: seq<Block>, i: nat, n: nat)
    requires PathIn(fn, rank, l, q) && i < |l.subs| && n < |q| && q[n] in l.subs[i].blocks
    ensures n > 0 && SubIndex(l.subs, q[n]) == i
    ensures WellNested(fn, rank, l.subs[i]) && SubIndex(l.subs[i].subs, l.subs[i].header) < 0
    ensures q[n - 1] !in l.subs[i].blocks ==> q[n] == l.subs[i].header
  {
    assert IsLoop(fn, l.subs[i]);
    assert n > 0;
    assert Transfer(fn, q, n - 1);
  }

  lemma SubsApart(fn: Function, rank: map<Block, nat>, l: Loop, i: nat)
    requires WellNested(fn, rank, l) && i < |l.subs|
    ensures forall j :: 0 <= j < |l.subs| && j != i ==> l.subs[j].blocks !! l.subs[i].blocks
  {
  }

  lemma NextInside(l: Loop, i: nat, b: Block, c: seq<nat>, d: Block)
    requires i < |l.subs| && SubIndex(l.subs, b) == i && d in l.subs[i].blocks && |c| >= 1
    ensures var s, c' := l.subs[i], NextCounters(l, b, c, d);
            && |c'| >= 1
            && c'[0] == (if d == s.header then c[0] + 1 else c[0])
            && c'[1..] == (if d == s.header then [] else NextCounters(s, b, c[1..], d))
  {
  }

  lemma NextOutside(l: Loop, i: nat, b: Block, c: seq<nat>, d: Block)
    requires i < |l.subs| && b !in l.subs[i].blocks && SubIndex(l.subs, d) == i
    requires SubIndex(l.subs, b) >= 0 ==> d !in l.subs[SubIndex(l.subs, b)].blocks
    ensures NextCounters(l, b, c, d) == [0]
  {
  }

  /** Coming back to a loop's own header resets the loops inside it. */
  lemma HeaderCounters(fn: Function, rank: map<Block, nat>, s: Loop, b: Block, c: seq<nat>)
    requires WellNested(fn, rank, s)
    ensures NextCounters(s, b, c, s.header) == []
  {
    var i := SubIndex(s.subs, b);
    assert i >= 0 ==> s.header !in s.subs[i].blocks;
  }

  lemma {:induction false} ReturnsShift(q: seq<Block>, i: nat, j: nat, h: Block, st: nat, en: nat)
    requires st <= i <= j < en <= |q|
    ensures Returns(q[st..en], i - st, j - st, h) == Returns(q, i, j, h)
    decreases j - i
  {
    if i < j {
      ReturnsShift(q, i, j - 1, h, st, en);
    }
  }

  lemma {:induction false} ReturnsMonotone(q: seq<Block>, st: nat, i: nat, j: nat, h: Block)
    requires st <= i <= j < |q|
    ensures Returns(q, i, j, h) <= Returns(q, st, j, h)
    decreases j - i
  {
    if i < j {
      ReturnsMonotone(q, st, i, j - 1, h);
    }
  }

  lemma {:induction false} BeganFirst(q: seq<Block>, s: Loop, i: nat, n: nat)
    requires i <= n < |q| && StaysIn(q, i, n, s)
    ensures Began(q, s, n) <= i
    decreases n
  {
    if i < n {
      BeganFirst(q, s, i, n - 1);
    }
  }

  lemma {:induction false} NestedBlocks(fn: Function, rank: map<Block, nat>, l: Loop, s: Loop)
    requires WellNested(fn, rank, l) && Nested(l, s)
    ensures s.blocks <= l.blocks
    decreases l
  {
    var i :| 0 <= i < |l.subs| && (s == l.subs[i] || Nested(l.subs[i], s));
    assert l.subs[i].blocks <= l.blocks && WellNested(fn, rank, l.subs[i]);
    if s != l.subs[i] {
      NestedBlocks(fn, rank, l.subs[i], s);
    }
  }

  lemma NestedSub(fn: Function, rank: map<Block, nat>, l: Loop, s: Loop) returns (m: nat)
    requires WellNested(fn, rank, l) && Nested(l, s)
    ensures m < |l.subs| && (s == l.subs[m] || Nested(l.subs[m], s)) && s.blocks <= l.subs[m].blocks
  {
    m :| 0 <= m < |l.subs| && (s == l.subs[m] || Nested(l.subs[m], s));
    assert WellNested(fn, rank, l.subs[m]);
    if s != l.subs[m] {
      NestedBlocks(fn, rank, l.subs[m], s);
    }
  }

  lemma StaysWider(q: seq<Block>, i: nat, j: nat, s: Loop, t: Loop)
    requires i <= j < |q| && StaysIn(q, i, j, s) && s.blocks <= t.blocks
    ensures StaysIn(q, i, j, t) && q[j] in t.blocks
  {
  }

  lemma StaysShift(q: seq<Block>, i: nat, j: nat, s: Loop, st: nat, en: nat)
    requires st <= i <= j < en <= |q|
    ensures StaysIn(q[st..en], i - st, j - st, s) <==> StaysIn(q, i, j, s)
  {
    var q' := q[st..en];
    assert forall t :: i <= t <= j ==> q[t] == q'[t - st];
    assert forall t :: i - st <= t <= j - st ==> q'[t] == q[t + st];
  }

  /** The stay in subloop `i` under way at `n`, as a path of its own. */
  lemma StayIsPath(fn: Function, rank: map<Block, nat>, l: Loop, q: seq<Block>, i: nat, n: nat)
    requires PathIn(fn, rank, l, q)
    requires i < |l.subs| && n < |q| && q[n] in l.subs[i].blocks
    ensures var s, st := l.subs[i], Began(q, l.subs[i], n);
            PathIn(fn, rank, s, q[st..n + 1])
  {
    hide CountersAt, Returns, WellNested, Began, SubIndex, BlockPath;
    CounterCounts(fn, rank, l, q, i, n);
    SubEntry(fn, rank, l, q, i, n);
    SegmentIsPath(fn, l, l.subs[i], q, Began(q, l.subs[i], n), n);
  }

  lemma SegmentIsPath(fn: Function, l: Loop, s: Loop, q: seq<Block>, st: nat, n: nat)
    requires BlockPath(fn, l, q) && st <= n < |q| && StaysIn(q, st, n, s)
    ensures BlockPath(fn, s, q[st..n + 1]) && q[st..n + 1][0] == q[st]
  {
    var q' := q[st..n + 1];
    forall t | 0 <= t < |q'| - 1
      ensures Transfer(fn, q', t)
    {
      assert Transfer(fn, q, st + t);
    }
    forall t | 0 <= t < |q'|
      ensures q'[t] in s.blocks
    {
      assert q[st + t] in s.blocks;
    }
  }

  lemma {:induction false} CountersPrefix(l: Loop, q: seq<Block>, m: nat, n: nat)
    requires n < m <= |q|
    ensures CountersAt(l, q[..m], n) == CountersAt(l, q, n)
    decreases n
  {
    if n > 0 {
      CountersPrefix(l, q, m, n - 1);
    }
  }

  lemma {:induction false} BoundedImpliesStays(fn: Function, rank: map<Block, nat>, k: nat, l: Loop, q: seq<Block>,
                                               s: Loop, i: nat, j: nat)
    requires PathIn(fn, rank, l, q)
    requires AllAtMost(k, l, q)
    requires Nested(l, s) && i <= j < |q| && StaysIn(q, i, j, s)
    ensures Returns(q, i, j, s.header) <= k
    decreases l
  {
    hide BlockPath, WellNested, CountersAt, AtMost, Nested, Returns, StaysIn;
    var m := NestedSub(fn, rank, l, s);
    var t := l.subs[m];
    StaysWider(q, i, j, s, t);
    var st := Began(q, t, j);
    BeganFirst(q, t, i, j);
    CounterCounts(fn, rank, l, q, m, j);
    if s == t {
      ReturnsMonotone(q, st, i, j, s.header);
      AtMostTail(k, CountersAt(l, q, j));
    } else {
      StayIsPath(fn, rank, l, q, m, j);
      var q' := q[st..j + 1];
      StayCountersBounded(fn, rank, k, l, q, m, j);
      StaysShift(q, i, j, s, st, j + 1);
      BoundedImpliesStays(fn, rank, k, t, q', s, i - st, j - st);
      ReturnsShift(q, i, j, s.header, st, j + 1);
    }
  }

  /** The inner counters at step `m` of a stay, read on the stay alone. */
  lemma StayCounter(fn: Function, rank: map<Block, nat>, k: nat, l: Loop, q: seq<Block>, i: nat, m: nat, j: nat)
    requires PathIn(fn, rank, l, q) && i < |l.subs| && j < |q| && q[j] in l.subs[i].blocks
    requires Began(q, l.subs[i], j) <= m <= j && AtMost(k, CountersAt(l, q, m))
    ensures var st := Began(q, l.subs[i], j);
            AtMost(k, CountersAt(l.subs[i], q[st..j + 1], m - st))
  {
    hide WellNested, BlockPath, CountersAt, AtMost, Returns, Began, SubIndex, StaysIn;
    var s, st := l.subs[i], Began(q, l.subs[i], j);
    BeganSame(q, s, m, j);
    CounterCounts(fn, rank, l, q, i, m);
    AtMostTail(k, CountersAt(l, q, m));
    CountersSlice(s, q, st, j + 1, m - st);
  }

  lemma CountersSlice(s: Loop, q: seq<Block>, st: nat, en: nat, n: nat)
    requires st + n < en <= |q|
    ensures CountersAt(s, q[st..en], n) == CountersAt(s, q[st..], n)
  {
    hide CountersAt;
    assert q[st..][..en - st] == q[st..en];
    CountersPrefix(s, q[st..], en - st, n);
  }

  lemma StayCountersBounded(fn: Function, rank: map<Block, nat>, k: nat, l: Loop, q: seq<Block>, i: nat, j: nat)
    requires PathIn(fn, rank, l, q) && AllAtMost(k, l, q)
    requires i < |l.subs| && j < |q| && q[j] in l.subs[i].blocks
    ensures var s, st := l.subs[i], Began(q, l.subs[i], j);
            AllAtMost(k, s, q[st..j + 1])
  {
    hide PathIn, CountersAt, AtMost, Began, StaysIn;
    var s, st := l.subs[i], Began(q, l.subs[i], j);
    var q' := q[st..j + 1];
    forall n: nat | 0 <= n < |q'|
      ensures AtMost(k, CountersAt(s, q', n))
    {
      StayCounter(fn, rank, k, l, q, i, st + n, j);
    }
  }

  lemma {:induction false} BeganSame(q: seq<Block>, s: Loop, m: nat, n: nat)
    requires n < |q| && q[n] in s.blocks && Began(q, s, n) <= m <= n
    ensures q[m] in s.blocks && Began(q, s, m) == Began(q, s, n)
    decreases n
  {
    if m < n {
      assert q[n - 1] in s.blocks;
      BeganSame(q, s, m, n - 1);
    }
  }

  lemma {:induction false} StaysImplyBounded(fn: Function, rank: map<Block, nat>, k: nat, l: Loop, q: seq<Block>,
                                             n: nat)
    requires PathIn(fn, rank, l, q) && n < |q|
    requires BoundedStays(k, l, q)
    ensures AtMost(k, CountersAt(l, q, n))
    decreases l
  {
    hide BlockPath, WellNested, CountersAt, AtMost, Nested, Returns, StaysIn, BoundedStays;
    var i := SubIndex(l.subs, q[n]);
    if i < 0 {
      AtShaped(fn, rank, l, q, n);
      NoCounters(k, l, q[n], CountersAt(l, q, n));
    } else {
      var s, st := l.subs[i], Began(q, l.subs[i], n);
      CounterCounts(fn, rank, l, q, i, n);
      SubStay(k, l, q, i, st, n);
      StayIsPath(fn, rank, l, q, i, n);
      InnerStays(k, l, q, i, st, n + 1);
      StaysImplyBounded(fn, rank, k, s, q[st..n + 1], n - st);
      CountersSlice(s, q, st, n + 1, n - st);
      AtMostTail(k, CountersAt(l, q, n));
    }
  }

  lemma NoCounters(k: nat, l: Loop, b: Block, c: seq<nat>)
    requires Shaped(l, b, c) && SubIndex(l.subs, b) < 0
    ensures AtMost(k, c)
  {
  }

  lemma SubStay(k: nat, l: Loop, q: seq<Block>, i: nat, st: nat, n: nat)
    requires BoundedStays(k, l, q) && i < |l.subs| && st <= n < |q| && StaysIn(q, st, n, l.subs[i])
    ensures Returns(q, st, n, l.subs[i].header) <= k
  {
    assert Nested(l, l.subs[i]);
  }

  lemma InnerStays(k: nat, l: Loop, q: seq<Block>, i: nat, st: nat, en: nat)
    requires BoundedStays(k, l, q) && i < |l.subs| && st < en <= |q|
    ensures BoundedStays(k, l.subs[i], q[st..en])
  {
    var q' := q[st..en];
    forall s, a: nat, b: nat | Nested(l.subs[i], s) && a <= b < |q'| && StaysIn(q', a, b, s)
      ensures Returns(q', a, b, s.header) <= k
    {
      assert Nested(l, s);
      StaysShift(q, st + a, st + b, s, st, en);
      ReturnsShift(q, st + a, st + b, s.header, st, en);
    }
  }

  lemma GoodRank(fn: Function) returns (rank: map<Block, nat>)
    requires Reducible(fn)
    ensures WellNested(fn, rank, fn.root) && SubIndex(fn.root.subs, fn.root.header) < 0
    ensures fn.root.header in fn.root.blocks
  {
    rank :| WellFormed(fn, rank);
  }

  /** Along a path from a function's entry the counters stay at or below `k` exactly when
      no uninterrupted stay in a loop comes back to the loop's header more than `k` times. */
  lemma StaysIffAtMost(fn: Function, k: nat, q: seq<Block>)
    requires Reducible(fn) && BlockPath(fn, fn.root, q) && q[0] == fn.root.header
    ensures AllAtMost(k, fn.root, q) <==> BoundedStays(k, fn.root, q)
  {
    hide WellNested, AtMost, Returns, StaysIn, Nested;
    var rank := GoodRank(fn);
    assert PathIn(fn, rank, fn.root, q);
    if AllAtMost(k, fn.root, q) {
      forall s, i: nat, j: nat | Nested(fn.root, s) && i <= j < |q| && StaysIn(q, i, j, s)
        ensures Returns(q, i, j, s.header) <= k
      {
        BoundedImpliesStays(fn, rank, k, fn.root, q, s, i, j);
      }
    }
    if BoundedStays(k, fn.root, q) {
      forall n | 0 <= n < |q|
        ensures AtMost(k, CountersAt(fn.root, q, n))
      {
        StaysImplyBounded(fn, rank, k, fn.root, q, n);
      }
    }
  }

  /** A path of a function's blocks from its entry is kept by unrolling exactly when
      no uninterrupted stay in a loop comes back to the loop's header more than `k` times. */
  lemma PathKeptIff(fn: Function, k: nat, q: seq<Block>)
    requires Reducible(fn) && BlockPath(fn, fn.root, q) && q[0] == fn.root.header
    ensures (exists cs :: Kept(k, fn.root, q, cs)) <==> BoundedStays(k, fn.root, q)
  {
    hide WellNested, AllAtMost, BoundedStays, Kept;
    var rank := GoodRank(fn);
    assert PathIn(fn, rank, fn.root, q);
    KeptIffBounded(fn, rank, k, fn.root, q);
    StaysIffAtMost(fn, k, q);
  }
}
