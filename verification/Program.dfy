/** Functions of the analysed program as the unroller sees them: basic blocks of
    instructions, the blocks' successors, and the loop forest that loop analysis
    reports. A function is itself the outermost "loop" `root`, whose header is
    the function's entry block and which is never iterated. */
module Program {

  type Block = nat
  type FuncName = nat

  datatype Instr = Plain(id: nat) | Call(callee: FuncName)

  datatype Loop = Loop(header: Block, blocks: set<Block>, subs: seq<Loop>)

  datatype Function = Function(root: Loop, code: map<Block, seq<Instr>>, succs: map<Block, set<Block>>)

  /** The first loop of `subs` that holds `b`, or -1. */
  function SubIndex(subs: seq<Loop>, b: Block): (i: int)
    ensures -1 <= i < |subs|
    ensures i >= 0 ==> b in subs[i].blocks
    ensures i < 0 ==> forall j :: 0 <= j < |subs| ==> b !in subs[j].blocks
  {
    if |subs| == 0 then -1
    else if b in subs[0].blocks then 0
    else
      var r := SubIndex(subs[1..], b);
      assert r < 0 ==> forall j :: 1 <= j < |subs| ==> subs[j] == subs[1..][j - 1];
      if r < 0 then -1 else r + 1
  }

  /** The block that stands for `b` among the components of `l`: the header of the
      immediate subloop that holds `b`, or `b` itself. */
  function Representative(l: Loop, b: Block): (r: Block) {
    var i := SubIndex(l.subs, b);
    if i >= 0 then l.subs[i].header else b
  }

  ghost predicate SameSub(l: Loop, b: Block, b': Block) {
    exists i :: 0 <= i < |l.subs| && b in l.subs[i].blocks && b' in l.subs[i].blocks
  }

  predicate HasPredecessor(fn: Function, b: Block) {
    exists p :: p in fn.succs && b in fn.succs[p]
  }

  /** `l` is a properly nested, reducible loop of `fn`: its subloops are disjoint
      parts of it, control enters a subloop only at its header, and apart from the
      edges back to `l`'s header control moves between `l`'s components in
      increasing `rank`. */
  ghost predicate WellNested(fn: Function, rank: map<Block, nat>, l: Loop)
    decreases l
  {
    && l.header in l.blocks
    && l.blocks <= fn.code.Keys
    && l.blocks <= rank.Keys
    && SubIndex(l.subs, l.header) < 0
    && (forall i, j :: 0 <= i < j < |l.subs| ==> l.subs[i].blocks !! l.subs[j].blocks)
    && (forall i :: 0 <= i < |l.subs| ==>
          && l.subs[i].blocks <= l.blocks
          && WellNested(fn, rank, l.subs[i])
          && IsLoop(fn, l.subs[i]))
    && (forall b, b' ::
          && b in l.blocks && b' in l.blocks && b in fn.succs && b' in fn.succs[b]
          && b' != l.header && !SameSub(l, b, b')
          ==>
          && Representative(l, b) in rank
          && Representative(l, b') in rank
          && rank[Representative(l, b)] < rank[Representative(l, b')])
  }

  /** What makes a set of blocks a natural loop: control enters it only at the
      header, its header has a predecessor, and it holds no block without successors. */
  ghost predicate IsLoop(fn: Function, s: Loop) {
    && (forall b, b' :: b in fn.succs && b' in fn.succs[b] && b !in s.blocks && b' in s.blocks ==> b' == s.header)
    && (exists p :: p in fn.succs && s.header in fn.succs[p])
    && (forall b :: b in s.blocks && b in fn.succs ==> fn.succs[b] != {})
  }

  ghost predicate WellFormed(fn: Function, rank: map<Block, nat>) {
    && fn.code.Keys == fn.succs.Keys == fn.root.blocks
    && (forall b :: b in fn.succs ==> fn.succs[b] <= fn.succs.Keys)
    && (forall b :: b in fn.code ==> |fn.code[b]| > 0 && (fn.succs[b] == {} ==> fn.code[b][|fn.code[b]| - 1].Plain?))
    && (forall b :: b in fn.succs ==> fn.root.header !in fn.succs[b])
    && WellNested(fn, rank, fn.root)
  }

  /** The function's loop forest is properly nested and every cycle goes through a loop header. */
  ghost predicate Reducible(fn: Function) {
    exists rank :: WellFormed(fn, rank)
  }

  predicate Exiting(fn: Function, s: Loop, b: Block) {
    b in s.blocks && b in fn.succs && exists d :: d in fn.succs[b] && d !in s.blocks
  }
}
