# Clou in Dafny

Clou looks for speculative leaks in a compiled function. It unrolls and inlines the
function into a loop-free control-flow graph, builds an event graph over that graph,
and searches the event graph backwards from every node that could transmit a secret.
This project models that pipeline and the arithmetic of three of the benchmark programs
that ship with it, and proves what each stage is for.

## What is proved

**Unrolling and inlining** (`Program`, `UnrollSpec`, `UnrollParts`, `Unroll`,
`UnrollTheorems`, `UnrollCounts`, `UnrollRuns`, `UnrollPruned`). `Unroll.Unroller` is the
mutually recursive builder: it appends nodes, connects ports, cuts the edges back to a
loop's header and glues the iterations together. Its result is compared with a machine
whose states are stacks of activations, each with one counter per enclosing loop.
`Construct` builds that machine's graph, node for node and edge for edge; every node
carries the instruction of its position, and its function and loop identifiers tell
activations and copies of loop bodies apart. The graph is acyclic, and a run of the
program, calls and returns included, is a path of it exactly when it is within bounds: no
activation ever, in one uninterrupted stay in a loop, comes back to the loop's header more
often than the number of unrolls, and none goes on after a call that was inlined as the
last instruction of a block (`RunsLift`); no run is represented twice (`LiftUnique`).
Inlining ends also for mutually recursive functions, because no function is on the call
stack more than `recursive_call_limit + 1` times. `UnrollPruned.Build` adds the pruning
with which the construction ends.

**Clean-up, order, dominators, distances** (`Binrel`, `BlockCfg`, `Cleanup`, `Dominators`,
`Distances`). Pruning keeps exactly the nodes that reach an exit, sorting makes every edge
go upwards, the order answered from basic blocks is the order of non-empty paths, the
dominator pass that gives its sets away as soon as nobody needs them computes the path
definition, and the two distance passes compute shortest paths.

**Memory relations** (`Memory`, `XState`). The three encodings of "reads from" all mean
"last writer" and agree where all three apply (`EncodingsAgree`), every executed read has
exactly one source, and "from reads" is "reads from" backwards followed by coherence, with
the exact exception.

**The search** (`SearchSpec`, `SearchTheorems`, `SearchLanguage`, `Search`).
`Search.DetectorJob` is the recursion over shared stacks, with scopes, lookahead and early
exits. It is proved against a plain function without lookahead, for every leaf check on
which lookahead can rely (`LeafLaw`). With the Spectre v1 check, which is one of them,
that function reports exactly the chains of the leakage language that the solver does not
refute.

**Dataflow and strongly connected components** (`Dataflow`, `DataflowTheorems`,
`DataflowLoop`, `TransientAA`, `Kosaraju`). The cached worklist engine reaches the
greatest solution, with one instruction or one block per component alike, and its exit
values are right whatever the cache holds, which is what the transfer of a whole loop
relies on; the transient alias analysis finds the allocations and the casts of what it
finds; Kosaraju's two sweeps separate components exactly when the starting nodes are
sealed off.

**Benchmark arithmetic** (`Arithmetic`, `Field25519`, `FieldProduct`, `FieldBytes`,
`ConstantTime`, `HashCollector`, `RecordDigest`). Multiplication and squaring modulo 2^255
- 19, the prime of section 4.1 of RFC 7748; the canonical encoding of section 5 of RFC
7748; the streaming hash with the padding of section 5.1.1 of FIPS 180-4; and the
constant-time record digest, which for keys of at most 64 bytes equals the inner hash of
section 2 of RFC 2104 over the record of section 6.2.3.1 of RFC 5246.

## How it is modelled

- The loop forest of a function is a parameter: a properly nested forest in which every
  cycle goes through a loop header, a loop is entered at its header only, and no loop
  holds a block without successors. A block without successors does not end with a call,
  and no two functions share a block.
- Solver expressions are their truth values under an arbitrary assignment. The solver is
  a pair of predicates on sets of constraints: unsat with and unsat without a time limit.
- Instructions, addresses and branch conditions are opaque numbers. Alias answers, the
  attacker-taint analysis, the execution window, the sources of each load, and the
  compression function of the hash are parameters.
- Where the source iterates over an unordered container, the model chooses an arbitrary
  element; where order matters to the result, as in the search, it is a sequence.
- 32-bit and 64-bit arithmetic is written out on unbounded integers, with wrap-around or
  a proof that nothing overflows.
- Exceptions that end a search early are an outcome that every caller passes on.

## Where the code and its promises differ

- `Kosaraju(nodes, edges)` finds the components only if no edge leads into what is
  reachable from `nodes` from outside it. `Kosaraju.Run` proves that this is exactly the
  condition and that otherwise every outside source of such an edge is put into a wrong
  component; `UnsealedExample` runs it on an input where that happens. The constructor
  that collects all nodes always meets the condition.
- `prune` renumbers the nodes but neither `entry` nor `exits`. They still name the same
  nodes exactly when nothing below them was deleted (`Cleanup.CFG.Prune`); for an unrolled
  function that is exactly when it has a complete run within bounds (`UnrollPruned.Build`).
  A function that loops for ever loses its entry, its exit becomes node 0, which the graph
  still calls its entry, and node 1, its exit by name, does not exist
  (`UnrollPruned.EndlessLosesNames`).
- A block whose last instruction is an inlined call, as with an invoke, loses the edges to
  its successors: the exits of the call are filed under the callee's blocks, and the edges
  are looked up under the caller's. The program goes on from there and the graph does not
  (`UnrollTheorems.StrandedStops`). `Lifting` and `RunsLift` are exact about it, and
  `UnrollPruned.InvokingLosesRun` names a program that returns in a run the graph has not.
- "From reads" differs from "reads from" backwards and then coherence for a node that may
  write, does not, lies before the read, and is followed by no write up to the read
  (`Memory.FrIsRfThenCo`, `Memory.FrBroken`). For stores the law holds.
- A graph keeps its dataflow cache from run to run. When it is run again, components whose
  entry value is already cached keep the top values they were reset to, and the values at
  their instructions are wrong (`DataflowTheorems.CacheHarmlessIff`, `ReuseGoesWrong`). They
  are right from an empty cache, and whenever no component is cached with the value it
  starts from (`FreshStartsHarmless`). The transfer of a loop runs one graph several times,
  as the pass in src/passes/ssb-control.cc does; it keeps the instructions' values of the
  first run only and the exit values of the last, which are right whatever the cache holds
  (`Dataflow.Graph.Transfer`, `DataflowLoop.TransferLoop`).
- In `fcontract` a shift leaves 32 bits exactly when bit 127 of the number that is encoded
  is set (`FieldBytes.FContract`, `ShiftsFitIff`); limbs that are zero but for limb 4, which
  is 2^25, are such an input (`ShiftOverflows`). With two's-complement wrap-around the bytes
  are still right.
- The record digest cuts keys of more than 64 bytes short (`RecordDigest.LongKeyTruncated`),
  where section 2 of RFC 2104 hashes them first.
- A window of the unsigned maximum takes in every node, even those from which no path leads
  to the transmitter, because that number is also the mark for "no path"
  (`Distances.ForEachPredInWindow`, `LargestWindow`).
- The transient alias analysis never keeps an address computation: the test it would have
  to pass asks its base to be a constant and a tracked result at once
  (`TransientAA.GepNeverKept`).
- The constraint that some branch is tainted, which the leaf check adds, outlives the scope
  in which the leaf was reached. `DetectorJob.TracebackDepsRec` states so
  (`OnlyLeafAdded`), and the language theorems account for it.
- Lookahead from a point sees the current node twice. A leaf check that lookahead counts on
  wherever it reports can still lose reports; it must be counted on at every point that
  looks alike (`SearchTheorems.SamePointNotEnough`, `LookaheadComplete`).

## Model

| member | source | states |
|---|---|---|
| `UnrollPruned.Build` | src/cfg/unrolled.cc:13-25 | the pruned, acyclic graph's paths from node 0 to node 1 are, one to one, the complete program runs within bounds, and entry and exit keep their names exactly when there is such a run; otherwise node 0 is the exit; every other node carries the instruction of its position, and two nodes share a function id exactly within an activation and a loop id exactly within a copy of a loop body |
| `UnrollPruned.MarkedHolds` | src/cfg/cfg.cc:88-97 | pruning moves every node's instruction and ids along with its name |
| `UnrollPruned.EndlessLosesNames` | src/cfg/cfg.cc:74-107 | for a function that loops for ever only the exit is left, as node 0, while the graph's entry is 0 and its exits are {1} |
| `UnrollPruned.InvokingLosesRun` | src/cfg/unrolled.cc:163-197 | a program whose first block ends with an inlined call: it returns, and no path stands for that run |
| `UnrollPruned.CompleteRuns` | src/cfg/unrolled.cc:13-25 | before pruning, entry-to-exit paths stand for exactly the complete runs within bounds |
| `UnrollPruned.PathsKept` | src/cfg/cfg.cc:50-107 | pruning keeps the entry-to-exit paths under their new names, and adds none |
| `UnrollPruned.NamesKeptIff` | src/cfg/cfg.cc:50-107 | the un-renumbered entry and exit still name the right nodes exactly when the exit can be reached from the entry |
| `UnrollRuns.RunsLift` | src/cfg/unrolled.cc:118-253 | a run of the program, with calls and returns, is a path of the unrolled graph if and only if no activation's stay in a loop returns to its header more than `num_unrolls` times and none goes on after a call inlined at the end of its block |
| `UnrollRuns.LiftUnique` | src/cfg/unrolled.cc:118-253 | no two paths from the graph's entry stand for the same run |
| `UnrollRuns.LiftIsRun` | src/cfg/unrolled.cc:118-253 | every path from the graph's entry is a run within bounds, and its counters are those read off the run |
| `UnrollTheorems.UnrolledAcyclic` | src/cfg/unrolled.cc:205-253 | the unrolled graph has no cycle |
| `UnrollTheorems.Projection` | src/cfg/unrolled.cc:118-253 | every step of the unrolled machine is a control transfer of the program |
| `UnrollTheorems.GraphProjects` | src/cfg/unrolled.cc:118-253 | the unrolled graph projects edge by edge to the program |
| `UnrollTheorems.Lifting` | src/cfg/unrolled.cc:228-246 | a control transfer of the program is kept if and only if it is neither back to the header of a loop in its last iteration nor out of a block that ends with an inlined call |
| `UnrollTheorems.GraphLifts` | src/cfg/unrolled.cc:228-246 | the same for the edges of the graph that was built |
| `UnrollTheorems.StrandedStops` | src/cfg/unrolled.cc:163-197 | after a call inlined at the end of a block the program has a next position and the machine has none |
| `UnrollTheorems.MoveKept` | src/cfg/unrolled.cc:228-246 | which counters follow a kept transfer: one more at the header, none below it, the others unchanged |
| `UnrollTheorems.MoveGoesForward` | src/cfg/unrolled.cc:205-253 | every transfer except those to the outermost header increases a lexicographic position |
| `UnrollTheorems.StepGoesForward` | src/cfg/unrolled.cc:205-289 | every step of the machine, through calls and returns, increases that position |
| `UnrollTheorems.CallDepthBounded` | src/cfg/unrolled.cc:39-48 | no function is on the call stack more than `recursive_call_limit + 1` times |
| `UnrollCounts.PathKeptIff` | src/cfg/unrolled.cc:220-246 | a block path is kept exactly when no uninterrupted stay in a nested loop returns to its header more than `k` times |
| `UnrollCounts.KeptIffBounded` | src/cfg/unrolled.cc:220-246 | a block path is kept exactly when its unbounded counters stay at or below `k` |
| `UnrollCounts.StaysIffAtMost` | src/cfg/unrolled.cc:220-246 | counters stay at or below `k` exactly when all stays in loops are bounded |
| `UnrollCounts.CounterCounts` | src/cfg/unrolled.cc:220-246 | a loop's counter is the number of returns to its header since the loop was last entered |
| `Unroll.Unroller.Construct` | src/cfg/unrolled.cc:13-25 | the graph is the machine's, one node per position and one edge per step, between a fresh entry and exit; every node carries its position's instruction, function ids are equal exactly for the same callers, and loop ids exactly for the same copy of a loop body |
| `Unroll.AllToldApart` | src/cfg/unrolled.h:24-36 | once everything is laid out, equal ids mean the same activation or copy, and different ids different ones |
| `Unroll.Unroller.constructor` | src/cfg/unrolled.h:21-36 | starts with no nodes, an empty call stack and empty ids |
| `Unroll.Unroller.AddEntryAndExit` | src/cfg/unrolled.cc:14-16 | node 0 is the entry, node 1 the exit |
| `Unroll.Unroller.ConstructInstruction` | src/cfg/unrolled.cc:27-48 | lays out one instruction or, exactly when the callee is known and at most `recursive_call_limit` times on the stack, the whole callee in its place, with the right entry, exit nodes and block names of the exits |
| `Unroll.Unroller.ConstructCall` | src/cfg/unrolled.cc:49-71 | an inlined call: the callee's activation laid out in place of the instruction, entered at its start and left from its returns |
| `Unroll.Unroller.ConstructCallee` | src/cfg/unrolled.cc:49-71 | the callee's activation laid out under an id of its own, and the caller's id restored |
| `Unroll.Unroller.BeginActivation` | src/cfg/unrolled.h:29-31 | every inlined activation gets a function id that no other activation has, so parameter keys never collide |
| `Unroll.Unroller.EndActivation` | src/cfg/unrolled.h:33-35 | the caller's ids are restored |
| `Unroll.Unroller.ConstructBlock` | src/cfg/unrolled.cc:96-116 | a block without predecessors is skipped; otherwise its instructions are chained in order |
| `Unroll.Unroller.AppendInstruction` | src/cfg/unrolled.cc:105-112 | one more instruction, connected to the one before |
| `Unroll.Unroller.ConstructLoopForest` | src/cfg/unrolled.cc:118-203 | lays out a loop body: subloops, then blocks, then the edges between them and no others |
| `Unroll.Unroller.AppendLoop` | src/cfg/unrolled.cc:122-130 | one more subloop, the earlier parts unchanged |
| `Unroll.Unroller.AppendBlock` | src/cfg/unrolled.cc:134-140 | one more block outside the subloops |
| `Unroll.Unroller.FinishBody` | src/cfg/unrolled.cc:163-202 | connects the components exactly along the control transfers between them and collects the ports |
| `Unroll.Unroller.ConstructLoop` | src/cfg/unrolled.cc:205-253 | the copies of a loop body, each back edge leading to the next copy and the last copy's to none |
| `Unroll.Unroller.AppendRound` | src/cfg/unrolled.cc:220-239 | one more copy, its edges to the header removed and remembered |
| `Unroll.Unroller.BuildRound` | src/cfg/unrolled.cc:222-234 | one copy of a body, with the sources of its back edges |
| `Unroll.Unroller.LayCopy` | src/cfg/unrolled.cc:221-226 | one copy of a body, its first node bearing the copy's own loop id |
| `Unroll.Unroller.BeginRound` | src/cfg/unrolled.cc:221-222 | every copy of a loop body gets a loop id that no other copy has |
| `Unroll.Unroller.EndRound` | src/cfg/unrolled.cc:238-238 | the id of the loop around it is restored |
| `Unroll.Unroller.CutHeader` | src/cfg/unrolled.cc:228-234 | removes exactly the edges into the header |
| `Unroll.Unroller.ConstructFunction` | src/cfg/unrolled.cc:257-289 | lays out one activation and restores the call stack |
| `Cleanup.CFG.Prune` | src/cfg/cfg.cc:50-107 | keeps exactly the nodes that reach an exit, renumbers by an order-preserving isomorphism, and leaves a name right exactly when nothing below it went |
| `Cleanup.CFG.DeleteDeadEnds` | src/cfg/cfg.cc:50-72 | deletes exactly the nodes that reach no exit, whatever order they come up in |
| `Cleanup.PruneExact` | src/cfg/cfg.cc:50-72 | when no dead end is left, exactly the nodes that reach no exit are gone |
| `Cleanup.PruneDelete` | src/cfg/cfg.cc:59-72 | deleting one dead end and looking at its predecessors keeps the invariant |
| `Cleanup.NewNames` | src/cfg/cfg.cc:78-86 | the new names are increasing, without gaps, and keep what has nothing deleted below |
| `Cleanup.Compact` | src/cfg/cfg.cc:88-97 | moving nodes down in place overwrites nothing too early |
| `Cleanup.Rename` | src/cfg/cfg.cc:99-106 | the renamed relation is isomorphic to the old one |
| `Cleanup.PathRenamed` | src/cfg/cfg.cc:99-106 | paths between renamed nodes are exactly the renamed paths |
| `Cleanup.CFG.ComputePostorder` | src/cfg/cfg.cc:128-160 | lists every node once, successors first, at each place the least node that can stand there; the asserted zero count always holds |
| `Cleanup.LeastFirstUnique` | src/cfg/cfg.cc:128-160 | there is only one such list |
| `Cleanup.FirstIsReady` | src/cfg/cfg.cc:142-146 | on an acyclic graph the first pair of the degree-ordered set waits for nothing |
| `Cleanup.CFG.TakeFirst` | src/cfg/cfg.cc:142-159 | counts and set stay in step when a node is listed |
| `Cleanup.CFG.Sort` | src/cfg/cfg.cc:329-376 | a graph isomorphism, entry and exits renamed with it, after which every edge goes from a smaller to a larger reference; the new numbers are the places in that list, reversed |
| `Binrel.Relation.Insert` | src/binrel.h:23-26 | adds exactly one edge, in both directions |
| `Binrel.Relation.AddNode` | src/binrel.h:51-54 | adds a node and no edge |
| `Binrel.Relation.EraseNode` | src/binrel.h:61-74 | removes the node and exactly the edges at it, self-loops included, from both maps |
| `Binrel.UnlinkIsWithout` | src/binrel.h:61-74 | clearing one side and then the other leaves both maps without the node, and still converse |
| `Binrel.Relation.PostorderRec` | src/binrel.h:136-152 | on an acyclic graph it succeeds and lists what it adds after all its successors |
| `Binrel.Relation.Postorder` | src/binrel.h:117-123 | exactly the reachable nodes, once each, successors first |
| `Binrel.Relation.ReversePostorder` | src/binrel.h:125-131 | the same, predecessors first |
| `BlockCfg.BlockCFG.constructor` | src/cfg/block.cc:5-28 | the blocks partition the nodes, are maximal chains from leaders, and the block relation's two maps are converse |
| `BlockCfg.BlockCFG.FindBlocks` | src/cfg/block.cc:8-19 | the worklist finds a block for every leader and nothing else |
| `BlockCfg.BlockCFG.ConstructBlock` | src/cfg/block.cc:30-49 | the chain from a leader to the last node before a boundary, and the leaders it leads to |
| `BlockCfg.BlockCFG.ConstructRel` | src/cfg/block.cc:51-66 | an edge between blocks for every edge from an end to a beginning |
| `BlockCfg.PartitionHolds` | src/cfg/block.cc:5-28 | every node is in exactly one block |
| `BlockCfg.RelHolds` | src/cfg/block.cc:51-66 | the block relation is the projection of the edges between blocks |
| `BlockCfg.PlaceUnique` | src/cfg/block.cc:30-49 | no node is at two places |
| `BlockCfg.BlockFlow` | src/cfg/block.cc:51-66 | the block graph is acyclic and all of it reachable from the entry block |
| `BlockCfg.OrderByBlocks` | src/cfg/block.cc:86-99 | node reachability is position within a block and block reachability across blocks |
| `BlockCfg.Summaries` | src/cfg/block.cc:68-84 | each block's set holds exactly the blocks with a non-empty path to it |
| `BlockCfg.LessIffPath` | src/cfg/block.cc:86-99 | `CFGOrder(a, b)` is true if and only if a non-empty path leads from `a` to `b` |
| `Dominators.DominatorPass` | src/aeg/construct.cc:705-801 | `r` is in `doms[d]` if and only if every path from a source to `r` passes `d`, and no set is read after it was given away |
| `Dominators.TakeIn` | src/aeg/construct.cc:756-793 | the intersection over the predecessors is the dominator set, and every set still needed is still there |
| `Dominators.DomStep` | src/aeg/construct.cc:752-798 | the path definition satisfies the dataflow equation |
| `Dominators.BlocksDominate` | src/aeg/construct.cc:705-811 | dominance between blocks is dominance between their leaders in the graph of nodes |
| `Dominators.BlocksPostdominate` | src/aeg/construct.cc:705-811 | the same for postdominance |
| `Dominators.OrderTopological` | src/aeg/construct.cc:714-731 | increasing leaders are a topological order of the blocks, decreasing ones of the reversed blocks |
| `Dominators.ConstructDominators` | src/aeg/construct.cc:705-811 | OUT gives the dominators, IN the postdominators, by the path definition |
| `Dominators.ExclusiveDominees` | src/aeg/construct.cc:849-859 | `excl_doms[d]` holds exactly the blocks that `d` dominates and that do not postdominate `d` |
| `Distances.DistancesTo` | src/aeg/util.cc:22-41 | the value of each node is the length of a shortest path to `ref`, or the maximum if there is none |
| `Distances.ForEachPredInWindow` | src/aeg/util.cc:22-53 | one call per node; `is` exactly for the entry, the exits and the nodes within `window` edges before `ref`, or for all nodes if `window` is the unsigned maximum |
| `Distances.LargestWindow` | src/aeg/util.cc:43-53 | a node from which no path leads to `ref` is in the largest window |
| `Distances.Spread` | src/aeg/construct.cc:125-151 | `trans` is possible exactly where a speculation introducer reaches along a path without fences |
| `Distances.InitTrans` | src/aeg/construct.cc:125-178 | it stays possible exactly where moreover an introducer is within `spec_depth` edges, also at the largest depth, where adding one wraps around |
| `Memory.RfExists` | src/aeg/exists.cc:89-115 | the fold of conditional stores computes "last same-address write before, or entry" |
| `Memory.OneSource` | src/aeg/exists.cc:66-115 | every architecturally executed ordinary read has exactly one source, the last same-address write before it or the entry |
| `Memory.FrIsRfThenCo` | src/aeg/exists.cc:66-123 | from-reads is reads-from backwards and then coherence, if and only if the named exception is absent |
| `Memory.CoAndFrFollowOrder` | src/aeg/exists.cc:66-123 | coherence orders the executed nodes that may write to one address, from-reads leads from those that may read to the later ones that may write |
| `Memory.FrForStores` | src/aeg/exists.cc:117-123 | for a performed write the law holds |
| `Memory.FrBroken` | src/aeg/exists.cc:117-123 | a concrete graph with two ordinary nodes at one address for which the law fails |
| `Memory.GetMems` | src/leakage/leakage.cc:416-434 | every node's array gives, for every address, the last executed writer before it in the window |
| `Memory.PrecomputeRfOne` | src/leakage/leakage.cc:902-917 | each store's condition says that it writes and no later node of the window does |
| `Memory.ReachableR` | src/leakage/leakage.cc:889-900 | exactly the nodes from which `init` is reached inside the window |
| `Memory.EncodingsAgree` | src/leakage/leakage.cc:889-917 | the array and the negated-prefix chain pick the same source when the executed nodes lie on one path, and it is the one that `rf_exists` says the load reads from |
| `Memory.FoldsAgree` | src/leakage/leakage.cc:416-434 | when nothing is transient the array gives for a load exactly the node that `rf_exists` says it reads from |
| `XState.LessIsOrder` | src/aeg/node.cc:88-106 | a strict total order, entry first and exits last, for every valuation |
| `XState.LessIsSooner` | src/aeg/node.cc:88-106 | ordinary nodes are ordered by their assigned `order`, at the same place by reference |
| `XState.RfxExists` | src/aeg/exists.cc:141-164 | the list of intervening writes computes "last writer of the state in the assigned order" |
| `XState.RfxIsLastWriter` | src/aeg/exists.cc:141-164 | the same, said in terms of the nodes' fields only |
| `XState.OneSource` | src/aeg/exists.cc:128-164 | every executed ordinary state read has exactly one source: of the executed writes of its state before it in the assigned order the last one, or the entry if there is none |
| `XState.CoxAndFrxFollowOrder` | src/aeg/exists.cc:128-178 | coherence and from-reads on states follow the assigned order |
| `XState.FrxIsRfxThenCox` | src/aeg/exists.cc:128-178 | from-reads on states is reads-from backwards and then coherence |
| `Search.DetectorJob.ForOneTransmitter` | src/leakage/leakage.cc:545-750 | reports what the search without lookahead finds, in the same order, with or without `use_lookahead`, restores every stack and the solver, and notes exactly the transmitters of the reported leaks |
| `Search.DetectorJob.TracebackDepsRec` | src/leakage/leakage.cc:1103-1200 | one point of the search: the reports are those of the reference, on every exit all stacks and scopes are back |
| `Search.DetectorJob.CommitOrTrace` | src/leakage/leakage.cc:1118-1199 | report or commit first, then trace back, in that order |
| `Search.DetectorJob.CommitEach` | src/leakage/leakage.cc:1132-1183 | every in-window edge of the wanted kind, in order, until the search ends early |
| `Search.DetectorJob.CommitEdge` | src/leakage/leakage.cc:1157-1181 | asserts the edge and its source's execution inside a scope that is closed again |
| `Search.DetectorJob.Traceback` | src/leakage/leakage.cc:516-543 | nothing beyond the depth bound or past a refuted read; otherwise stores, then address edges |
| `Search.DetectorJob.TracebackRf` | src/leakage/leakage.cc:450-494 | every in-window store that the load may read from, in order |
| `Search.DetectorJob.TracebackStore` | src/leakage/leakage.cc:472-492 | a store whose lookahead fails is skipped without losing a report |
| `Search.DetectorJob.TracebackEdge` | src/leakage/leakage.cc:496-514 | every in-window edge of one kind, in order |
| `Search.DetectorJob.FollowEdge` | src/leakage/leakage.cc:500-512 | an edge whose lookahead fails is skipped without losing a report |
| `Search.DetectorJob.Lookahead` | src/leakage/leakage.cc:436-448 | true exactly when the solver-free search finds something, and it leaves no trace |
| `Search.DetectorJob.RunPostdeps` | src/leakage/leakage.cc:1118-1131 | the leaf check's verdict in both modes, its reports in order, and the constraints it leaves behind |
| `Search.DetectorJob.RunSpectreV1` | src/leakage/spectre-v1.cc:61-92 | the Spectre v1 check: without a solver the taint answer for the current node, with it one report unless refuted, and the one constraint left behind |
| `Search.DetectorJob.RunOther` | src/leakage/leakage.cc:1118-1131 | the same for any other check, given by what it accepts, reports and leaves behind |
| `Search.DetectorJob.OutputExecution` | src/leakage/leakage.cc:233-246 | one report and one transmitter more; in fast mode the search for this transmitter ends |
| `Search.DetectorJob.AssertEdge` | src/leakage/leakage.cc:1059-1078 | the constraints that an edge stands for |
| `Search.DetectorJob.RfSources` | src/leakage/leakage.cc:1044-1052 | the cached sources are those that would be computed |
| `Search.DetectorJob.PopScope` | src/util/scope.h:24-93 | drops exactly what was asserted since the scope was opened |
| `SearchTheorems.LookaheadComplete` | src/leakage/leakage.cc:1106-1116 | if the search with the solver reports anything from a point, the lookahead from any point that looks alike finds something, for every leaf check that lookahead can rely on |
| `SearchTheorems.SpectreV1Lawful` | src/leakage/spectre-v1.cc:61-92 | the Spectre v1 check is one of these |
| `SearchTheorems.SamePointNotEnough` | src/leakage/leakage.cc:436-448 | a check that lookahead accepts at every point where it reports, and for which lookahead still loses a report |
| `SearchTheorems.OnlyWalks` | src/leakage/leakage.cc:450-543 | with any solver a report is an accepted walk that was not refuted |
| `SearchTheorems.AllWalks` | src/leakage/leakage.cc:450-543 | with a monotone solver every such walk is reported |
| `SearchLanguage.ReportedIffChain` | src/leakage/fol.cc:5-21 | with a monotone solver the reports are exactly the accepted, unrefuted chains of the language, whatever the answers under a time limit were |
| `SearchLanguage.OnlyChainsReported` | src/leakage/fol.cc:5-21 | with any solver only chains of the language are reported |
| `SearchLanguage.EveryChainReported` | src/leakage/fol.cc:5-21 | without unsat answers every accepted in-window chain with at most `max_traceback` starred steps, none at the transmitter, is reported, and nothing else |
| `SearchLanguage.ReportedConnected` | src/leakage/leakage.cc:283-294 | the reversed actions of a report are one connected path that ends at the transmitter |
| `Kosaraju.Kosaraju.Run` | src/unused/kosaraju.h:34-53 | two nodes get the same root exactly when each reaches the other, if and only if the starting nodes are sealed off; then the emitted sets are the components, and otherwise every outside node with an edge into the reachable part is misplaced |
| `Kosaraju.Kosaraju.OfNodes` | src/unused/kosaraju.h:20-22 | the two-argument constructor |
| `Kosaraju.Kosaraju.constructor` | src/unused/kosaraju.h:24-32 | takes all nodes that the edges mention |
| `Kosaraju.Kosaraju.Reverse` | src/unused/kosaraju.h:72-79 | the reversed edges |
| `Kosaraju.Kosaraju.Visit` | src/unused/kosaraju.h:81-88 | keeps the finish order: what reaches a finished node is strongly connected to it or to something that finishes later |
| `Kosaraju.Kosaraju.VisitAll` | src/unused/kosaraju.h:36-38 | visits exactly what is reachable |
| `Kosaraju.Kosaraju.Assign` | src/unused/kosaraju.h:90-97 | assigns to the root exactly what reaches it through unassigned nodes |
| `Kosaraju.Kosaraju.AssignAll` | src/unused/kosaraju.h:40-43 | in reverse finish order every root takes exactly its component |
| `Kosaraju.Kosaraju.Emit` | src/unused/kosaraju.h:49-52 | every component once |
| `Kosaraju.RootSeparates` | src/unused/kosaraju.h:40-43 | one root's sweep extends a correct assignment to a correct assignment |
| `Kosaraju.RootTakesAll` | src/unused/kosaraju.h:90-97 | everything strongly connected to a root is assigned with it |
| `Kosaraju.RootTakesOnly` | src/unused/kosaraju.h:90-97 | nothing else is, if all that reaches the root has been visited |
| `Kosaraju.WholeGraphSealed` | src/unused/kosaraju.h:24-32 | with all mentioned nodes the condition always holds |
| `Kosaraju.UnsealedExample` | src/unused/kosaraju.h:20-22 | from one edge and its target as the only starting node, both ends get the same root although nothing leads back |
| `Dataflow.Graph.Transfer` | src/dataflow/dataflow.h:85-122 | the run ends at the greatest solution of the dataflow equations, whatever the cache held, the exit values follow from it, and every instruction's values are said |
| `DataflowLoop.TransferLoop` | src/dataflow/dataflow.h:369-477 | the transfer of a loop: inside it the greatest solution from its entry value at every instruction, at its exits a run from the value at the header after the iterations asked for |
| `DataflowLoop.TransferExternal` | src/dataflow/dataflow.h:426-477 | stopping once the value at the header has settled changes nothing, nor does what the cache holds |
| `DataflowLoop.IterationsUnique` | src/dataflow/dataflow.h:446-467 | the values at the header are determined by the first |
| `Dataflow.Graph.MeetOnce` | src/dataflow/dataflow.h:169-197 | each entry value is the meet over the predecessors' exits |
| `Dataflow.Graph.TransferOnce` | src/dataflow/dataflow.h:199-227 | every exit value is the component's transfer of its entry value, from the cache or not |
| `Dataflow.Graph.RunOrRecall` | src/dataflow/dataflow.h:199-227 | a cached component returns the right exit and leaves its instructions' values alone |
| `Dataflow.Graph.TransferComponent` | src/dataflow/dataflow.h:271-320 | a block's instructions in order, each from its predecessor's value |
| `Dataflow.StableIsGreatest` | src/dataflow/dataflow.h:85-122 | a round that changes nothing has reached the greatest solution |
| `Dataflow.RoundDescends` | src/dataflow/dataflow.h:85-122 | every round only goes down, and stays above every solution |
| `Dataflow.BelowGreatest` | src/dataflow/dataflow.h:85-122 | whatever the equations do not lower is below the greatest solution |
| `Dataflow.GreatestUnique` | src/dataflow/dataflow.h:85-122 | there is only one greatest solution |
| `Dataflow.SettledSame` | src/dataflow/dataflow.h:85-122 | the outcome is determined by the equations and the initial cache |
| `DataflowTheorems.EmptyCacheHarmless` | src/dataflow/dataflow.h:199-227 | from an empty cache every instruction's values are those of the solution |
| `DataflowTheorems.CacheHarmlessIff` | src/dataflow/dataflow.h:199-227 | from any cache they are, if and only if every component that was already cached with its final entry value has only top values |
| `DataflowTheorems.ReuseGoesWrong` | src/dataflow/dataflow.h:199-227 | runs a lawful analysis twice on one graph: the first run is right and the second is wrong |
| `DataflowTheorems.FreshStartsHarmless` | src/dataflow/dataflow.h:199-227 | what a caller can look up: if no component is cached with the value it starts from, all values are right |
| `DataflowTheorems.ModesAgree` | src/dataflow/dataflow.h:528-548 | one instruction per component and one block per component give every instruction the same values |
| `DataflowTheorems.InstructionsAgreeWithBlocks` | src/dataflow/dataflow.h:528-548 | the greatest solution for instructions is the expansion of the one for blocks |
| `DataflowTheorems.PerInstructionOk` | src/dataflow/dataflow.h:528-548 | the graph of single instructions is a well-formed dataflow graph |
| `TransientAA.AliasesLawful` | src/dataflow/transient-aa.cc:19-60 | the transient alias analysis is a finite meet-semilattice with a monotone transfer |
| `TransientAA.GepNeverKept` | src/dataflow/transient-aa.cc:19-49 | an address computation is never kept |
| `TransientAA.TransientAliases` | src/dataflow/transient-aa.cc:77-110 | the pointers found are the allocations and the pointer casts whose operand is found too or not computed yet when control gets there; no load, call or address computation |
| `TransientAA.KeepIs` | src/dataflow/transient-aa.cc:19-60 | an instruction decides about its own result only: an allocation keeps it, a load, call or address computation drops it, a cast keeps it if its operand is kept |
| `TransientAA.EntryIs` | src/dataflow/transient-aa.cc:62-110 | a pointer is missing before an instruction exactly if its own instruction drops it and control can get from there to here |
| `TransientAA.Valid` | src/dataflow/transient-aa.cc:77-110 | exactly the pointers that every instruction leaves kept |
| `FieldProduct.FMul` | test/donna/donna.c:328-337 | the product modulo 2^255 - 19 for limbs below 2^27 in magnitude, with limbs below 2^26 |
| `FieldProduct.FSquare` | test/donna/donna.c:410-421 | the square modulo 2^255 - 19 under the same bounds |
| `FieldProduct.FProduct` | test/donna/donna.c:99-200 | the nineteen coefficients of the product of the inputs taken as 32-bit integers |
| `FieldProduct.FSquareInner` | test/donna/donna.c:345-401 | the nineteen coefficients of the square |
| `FieldProduct.ProductSumRight` | test/donna/donna.c:93-200 | each written-out sum is the coefficient of the product, and for limbs below 2^27 no product, sum or doubling on the way to it, in the source's order, leaves 64 bits |
| `FieldProduct.FitsMeans` | test/donna/donna.c:93-98 | a sum that is said to fit fits together with everything it is computed from |
| `FieldProduct.SquareIsProduct` | test/donna/donna.c:345-401 | the square's formulas equal the product's on equal inputs |
| `FieldProduct.SquareFits` | test/donna/donna.c:345-401 | for limbs below 2^27 nothing on the way to the square's coefficients leaves 64 bits |
| `Field25519.ProductValue` | test/donna/donna.c:99-200 | coefficients of that form stand for the product of the numbers that the limbs stand for |
| `FieldProduct.ProductBounds` | test/donna/donna.c:93-98 | every coefficient, and the sum of the magnitudes of its terms, is below 14 * 2^54 |
| `FieldProduct.FReduceDegree` | test/donna/donna.c:206-238 | folds the upper limbs down nineteenfold, below 280 * 2^54 |
| `FieldProduct.FoldedValue` | test/donna/donna.c:206-238 | folding keeps the value modulo the prime |
| `FieldProduct.DivisionsTruncate` | test/donna/donna.c:247-274 | the shifts divide, rounding towards zero, for every 64-bit value |
| `FieldProduct.FReduceCoefficients` | test/donna/donna.c:279-320 | limbs below 2^26 in magnitude and the same value modulo the prime |
| `FieldProduct.CarryLimb` | test/donna/donna.c:284-302 | one carry keeps the value, and the next limb stays below 281 * 2^54 |
| `FieldProduct.CarryFirst` | test/donna/donna.c:310-316 | the last carry keeps the value and brings all limbs below 2^26 |
| `FieldBytes.FExpand` | test/donna/donna.c:424-442 | limbs of the 255-bit number that the bytes encode |
| `FieldBytes.FContract` | test/donna/donna.c:471-612 | the little-endian bytes of the remainder modulo 2^255 - 19, for any limbs below 2^26 in magnitude; every shift stays within 32 bits exactly when bit 127 of that remainder is clear |
| `FieldBytes.Normalize` | test/donna/donna.c:483-584 | the canonical limbs of that representative |
| `FieldBytes.BorrowPass` | test/donna/donna.c:483-512 | two passes make all limbs non-negative and keep the value modulo the prime |
| `FieldBytes.CarryPass` | test/donna/donna.c:535-553 | two passes bring every limb into its width and keep the value modulo the prime |
| `FieldBytes.PrimeOrMore` | test/donna/donna.c:562-572 | the chain of masks is all ones exactly when the number reaches the prime |
| `FieldBytes.PrimeMask` | test/donna/donna.c:562-572 | the masks folded from bits give all ones exactly when the number reaches the prime |
| `FieldBytes.EqMaskIs` | test/donna/donna.c:449-457 | the folded equality mask is -1 for equal 32-bit integers and 0 for others |
| `FieldBytes.SubtractPrime` | test/donna/donna.c:565-584 | subtracts the prime exactly when the number reaches it |
| `FieldBytes.PutNext` | test/donna/donna.c:586-611 | one more limb written, over the bits its neighbour left |
| `FieldBytes.ShiftFits` | test/donna/donna.c:586-593 | the shift into place stays within 32 bits, except for limb 4 from 2^25 on |
| `FieldBytes.ShiftsFitIff` | test/donna/donna.c:586-593 | all ten shifts stay within 32 bits exactly when bit 127 of the number is clear |
| `FieldBytes.ShiftOverflows` | test/donna/donna.c:586-593 | an input of `fcontract` for which a shift leaves 32 bits |
| `FieldBytes.WriteLimbs` | test/donna/donna.c:586-611 | all limbs written, and whether their shifts fit |
| `FieldBytes.CanonicalUnique` | test/donna/donna.c:471-612 | the representative is unique |
| `FieldBytes.RoundTrip` | test/donna/donna.c:424-612 | contracting what a canonical encoding expands to gives the encoding back |
| `ConstantTime.LtIs` | test/ssl3-digest/constant_time_locl.h:138-141 | all ones exactly when `a < b`, for all 32-bit words |
| `ConstantTime.GeIs` | test/ssl3-digest/constant_time_locl.h:148-151 | all ones exactly when `a >= b` |
| `ConstantTime.IsZeroIs` | test/ssl3-digest/constant_time_locl.h:158-161 | all ones exactly for zero |
| `ConstantTime.EqIs` | test/ssl3-digest/constant_time_locl.h:168-171 | all ones exactly when `a == b` |
| `ConstantTime.MsbIs` | test/ssl3-digest/constant_time_locl.h:133-136 | the top bit, copied to all bits |
| `ConstantTime.SelectIs` | test/ssl3-digest/constant_time_locl.h:188-200 | a full mask selects the first value, an empty one the second |
| `ConstantTime.ByteMasks` | test/ssl3-digest/constant_time_locl.h:153-176 | truncation to a byte keeps the masks |
| `ConstantTime.FoldedEqIs` | test/donna/donna.c:449-457 | folding the complement of the difference gives all ones exactly for equal words |
| `HashCollector.Collector.Update` | test/ssl3-digest/md32_common.h:300-354 | collects the message: the state is the fold over its whole blocks, the buffer holds the rest, and Nh:Nl counts its bits modulo 2^64 |
| `HashCollector.Collector.Final` | test/ssl3-digest/md32_common.h:363-398 | the fold over the message with standard padding |
| `HashCollector.UpdateAll` | test/ssl3-digest/md32_common.h:300-354 | any sequence of updates collects the concatenation |
| `HashCollector.CountMore` | test/ssl3-digest/md32_common.h:310-319 | the two counter words carry right |
| `HashCollector.PaddedIs` | test/ssl3-digest/md32_common.h:363-390 | what the final call compresses, in one or two blocks, is the padded message |
| `HashCollector.BigEndianIs` | test/ssl3-digest/md32_common.h:248-253 | four bytes whose number, most significant first, is the word |
| `HashCollector.LengthNumber` | test/ssl3-digest/md32_common.h:379-390 | the eight bytes of the length are the number of bits modulo 2^64, most significant first |
| `HashCollector.PaddingFills` | test/ssl3-digest/md32_common.h:363-390 | the padding fills whole blocks with as few zeros as possible |
| `RecordDigest.DigestRecord` | test/ssl3-digest/ssl3_cbc_digest_record.c:641-862 | for every TLS record below 2^20 bytes with at most 256 bytes of padding, the result is the plain inner hash of header and data up to the MAC |
| `RecordDigest.InVariance` | test/ssl3-digest/ssl3_cbc_digest_record.c:663-724 | the blocks with the end of the data and with the length always fall among those computed in constant time |
| `RecordDigest.NumBlocksIs` | test/ssl3-digest/ssl3_cbc_digest_record.c:669-682 | the number of blocks is that of the padded message of a record with one byte of padding |
| `RecordDigest.PickedIsPadded` | test/ssl3-digest/ssl3_cbc_digest_record.c:812-853 | the masked bytes of a block are those of the padded message |
| `RecordDigest.PickByte` | test/ssl3-digest/ssl3_cbc_digest_record.c:812-853 | the masks choose data, 0x80, zero or a length byte |
| `RecordDigest.BuildBlock` | test/ssl3-digest/ssl3_cbc_digest_record.c:812-853 | a whole block of the padded message, byte by byte |
| `RecordDigest.StartBlocks` | test/ssl3-digest/ssl3_cbc_digest_record.c:785-795 | the blocks hashed ahead are the padded message's first ones |
| `RecordDigest.Collect` | test/ssl3-digest/ssl3_cbc_digest_record.c:857-861 | the digest is taken exactly in the block with the length |
| `RecordDigest.InnerHashIs` | test/ssl3-digest/ssl3_cbc_digest_record.c:727-743 | the inner hash is the fold over the padded message from the state after the key block |
| `RecordDigest.PadKey` | test/ssl3-digest/ssl3_cbc_digest_record.c:734-740 | each byte of the key block is the key's byte, or zero beyond it, against 0x36 |
| `RecordDigest.PadBits` | test/ssl3-digest/ssl3_cbc_digest_record.c:734-740 | bits 1, 2, 4 and 5 of each byte are turned over |
| `RecordDigest.LengthBytesAre` | test/ssl3-digest/ssl3_cbc_digest_record.c:744-757 | the length bytes are the bits of key block and message, most significant byte first |
| `RecordDigest.LongKeyTruncated` | test/ssl3-digest/ssl3_cbc_digest_record.c:734-742 | of a key longer than a block only the first block counts |
| `RecordDigest.PaddedIs` | test/ssl3-digest/ssl3_cbc_digest_record.c:696-757 | the padded message byte by byte, with the bit length of key block and message |

## Left out

- LLVM instructions and types, alias analysis, the solver's internals, its timeouts, and the threads and processes around the search: foreign code and timing.
- Return-value translations of inlined calls (src/cfg/unrolled.cc:73-88): a second entry for the same call in a later copy is dropped by the source, so there is no stated meaning to prove.
- `CFG_Expanded::resolve_refs` (src/cfg/expanded.cc:133-215): its result enters the model only as the given dependency edges.
- `prune_exec_window` (src/cfg/cfg.cc:433-490): its intended meaning is not stated; the execution window is a parameter of the search.
- Loops inside loops in the dataflow engine's LOOP mode: `DataflowLoop` has one loop of blocks, and the number of iterations from the source annotation is a parameter.
- The attacker-taint fixpoint: it depends on alias answers without stated laws.
- The relation algebra of src/fol.h, natural sets (src/util/container.h), option parsing, logs, graph output and the database: easy members or input and output.
- The SSLv3 path of the record digest, its outer hash, the SHA-1 rounds and the EVP stubs: the compression function is a parameter.
- The Curve25519 ladder and inversion (test/donna/donna.c:625-841), mee-cbc and tea.
- Search.DetectorJob.ForOneTransmitter: the windows, the private solver and the transmitter's own constraints are parameters, because they come from the solver translation.
- Search.DetectorJob.OutputExecution: does not model the files written for a report.
- Search.DetectorJob.RunPostdeps: the tainted-branch constraint is one opaque constraint, the abort on an unknown answer is left out, and the Spectre v4 check enters only as any lawful leaf check.
- Search.DetectorJob.RfSources: the sources of a load are a parameter; only the caching is modelled.
- Unroll.Unroller.ConstructCall: called only where `ConstructInstruction` has decided to inline; return values are not translated.
- Distances.InitTrans: at a `spec_depth` of the unsigned maximum the graph has fewer than 2^32 nodes; with longer paths the count would wrap around again.
- Unordered containers: the model proves its results for every order of iteration, and says nothing about which order occurs.
