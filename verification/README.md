# Verified model of the nybit middle end, NYIR codec and linker tables

nybit is a compiler back end: a mutable SSA representation with analyses and rewriting passes, a binary format for its
modules (NYIR), and a linker. This project models in Dafny the parts whose correctness is not visible from any one
function, and proves what they are for. `dafny verify dfyconfig.toml` checks all of it.

## What is modelled

**Functions and their runs.** `Ir` gives SSA functions a small-step run semantics. PHIs read the environment at block
entry and are chosen by the edge taken; calls, loads, stores and the other operations on the outside world take their
results from an oracle that sees the types and values of the operands and the trace of effects so far, so theorems
hold for every behaviour of the outside world. `IntFold` is the arithmetic of 8, 16, 32 and 64 bits, written out on
unbounded integers with explicit wrapping, `FoldSamples` writes some of it out, and `FoldExact` says which operands
the folds are right for. `FunctionStore` is the representation the C code works on, a class with array-backed doubly
linked lists, an operand pool and edge lists; `Snapshot()` is the function it represents and each operation is proved
to change that as `IrEdit` says.

**Analyses.** `Cfg` (explicit-stack depth-first search), `Dominators` (the fixpoint over a tree that changes while it
is walked), `Frontiers` (count, prefix sums, fill), `UseDef`, and `Bits`, `Liveness`, `LivenessPass` (64-bit rows) are
methods over arrays with the loops of the source. Each is proved against a meaning in terms of paths of the graph, and
`LivenessRuns` ties liveness to what runs read. `src/ir/dominator.c` runs the same loop as `src/analysis/dominator.c`,
so both use `Dominators`.

**Validator.** `Validate` proves the checking loops equivalent to a declarative predicate `Accepts`; `ValidatePaths`
says what that asks of every way through the function, and `ValidateSound` proves that accepted functions never read a
value before it is computed.

**Passes.** Constant propagation (`SccpLattice`, `SccpSteps`, `SccpPrecise`, `SccpTight`, `Sccp`, `SccpSound`,
`SccpRewrite`, `SccpShape`, `SccpApplied`, `SccpTwins`, `SccpPass`, `SccpAccept`, `SccpWitness`, `SccpWide`), value
numbering (`GvnKeys`, `GvnSound`, `GvnRename`, `GvnStep`, `Gvn`, `GvnComplete`, `GvnOrder`, `GvnPass`) and dead-code
elimination (`Dce`, `DceSilent`, `DcePass`, `DceOrder`, with `RunEdits` and `RemoveAccept`) follow one scheme. A
specification function says what the pass makes of a function, lemmas prove that this keeps runs (and acceptance) for
all inputs and that nothing the pass is for is left undone, and the method over `FunctionStore` is proved to end in
what the specification says. "How a run ends" is the returned value together with the trace of effects, or the trap.

**NYIR.** `NyirFormat` has the encoding and the decoding, `NyirWriter` and `NyirReader` are the classes that grow a
buffer and advance a position, `NyirRoundTrip` and `NyirDecoded` prove both directions, and `NyirBytes` fixes the
bytes.

**Linker.** `HashTable` and `HashValue`, `Resolve`, `BaseRelocs` and `BaseRelocBytes`, and the dynamic relocations in
`DynPlan`, `DynKinds`, `DynLayout`, `DynApply`, `DynLink` and `DynStub`.

Where a property is false of the code, the code is kept, the exact condition under which it holds is proved, and an
input (or a family of them) at which it fails is given: runs after constant propagation (`SccpTwins.RunUnchangedIff`,
`SccpWitness.TwinTargetsBreak`), edge lists after it (`SccpTwins.EdgesKeptIff`), acceptance after it
(`SccpAccept.AcceptedAfterIff`, `SccpWitness.LatePhiIsRefused`, `SccpWitness.CutOffIsRefused`), conservation of
dynamic relocations (`DynPlan.ConservedIff`, `DynApply.OwnBufferIff`, `DynApply.GotRecordIsDropped`), the jumps of the
PLT (`DynStub.StubReachesIff`, `DynStub.FirstPageMisses`), sharing across blocks (`GvnOrder.IdsMatter`), folding of
operands that are too wide (`FoldExact.FirstOperandIff`, `FoldExact.SecondOperandIff`, `SccpWide.WideConstMisfolds`),
symbol lookup (`Resolve.FoundIsBestIff`, `Resolve.LocalHides`), undefined-symbol reports (`Resolve.UndefinedIff`,
`Resolve.ReferenceOrderMatters`) and frontiers (`Frontiers.FrontiersExactIff`, with `Frontiers.EntryMissing` and
`Frontiers.LoopAtEntry`).

In the acceptance condition a block "remains" when a path of edges that the pass does not drop leads to it. That is
not the same as being executable: an executable BRANCH_IF whose condition never got a value keeps both edges, and
`SccpAccept.RemainsIsExecutable` says when the two agree.

Where documentation and code disagree, the model follows the code: `docs/nyir.md:450-452` says the validator matches
PHI inputs against the predecessors and checks operand types, and `src/ir/validate.c` does neither; what runs need of
types is a hypothesis (`SccpLattice.IntegerFunction`) of the pass theorems.

## Model

| member | source | states |
|---|---|---|
| Cfg.BuildCfgInfo | src/analysis/cfg.c:14-114 | The explicit-stack search lists each block reachable from the entry exactly once, in reverse post-order; reachability flags are exact; an edge out of a reachable block is a recorded back edge iff it does not go forward in that order; a block is a loop header iff a back edge enters it; the stack stays within the block count |
| Cfg.CycleHasBackEdge | src/analysis/cfg.c:65-70 | Every cycle of reachable blocks contains a recorded back edge, so dropping the back edges leaves a graph the order sorts topologically |
| Dominators.Intersect | src/analysis/dominator.c:14-26 | In the current tree, whatever it is by now, the two-finger walk ends on the block whose ancestors are exactly the common ancestors of its arguments |
| Dominators.ComputeParent | src/analysis/dominator.c:109-124 | The recomputed parent has as ancestors exactly the blocks that are ancestors of every known predecessor; none is found iff no predecessor is known |
| Dominators.Step | src/analysis/dominator.c:126-129 | Storing a recomputed parent keeps the loop's invariants, and a parent that was already known only moves up: its reverse post-order number never rises |
| Dominators.StepTerminates | src/analysis/dominator.c:102-131 | A parent that changes lowers the sum of tree heights, so the round-robin loop stops |
| Dominators.DominatorsAreAncestors | src/analysis/dominator.c:99-131 | At every point of the loop each dominator of a block is on the block's chain of parents |
| Dominators.AncestorsDominate | src/analysis/dominator.c:101-131 | When a pass changes nothing, each ancestor of a block lies on every path from the entry to it |
| Dominators.Pass | src/analysis/dominator.c:104-130 | One in-place pass keeps the invariants, and either lowers the measure or leaves a tree in which every block is settled |
| Dominators.BuildDominatorTree | src/analysis/dominator.c:28-131 | For every control-flow graph the loop ends, and its tree is the dominator tree: the defined blocks are the reachable ones and ancestors are exactly dominators |
| Dominators.QueryDominates | src/analysis/dominator.c:269-281 | The query answers true iff the blocks are equal or both are reachable and every path from the entry to b contains a |
| Dominators.ParentIsImmediate | src/analysis/dominator.c:99-131 | The parent of a reachable block is a strict dominator of it that every other strict dominator dominates |
| Slices.PrefixSums | src/analysis/dominator.c:148-152 | The start of each slice is the sum of the counts before it, and the total is the sum of all |
| Slices.Packer.Put | src/analysis/dominator.c:164-166 | Placing an item appends it to its own slice and to no other |
| Frontiers.BuildChildren | src/analysis/dominator.c:138-170 | The packed slice of a block lists its children in the tree, each once, ascending |
| Frontiers.CountFrontiers | src/analysis/dominator.c:177-199 | The counting traversal counts, for each block, exactly the frontier entries that the filling traversal stores |
| Frontiers.BuildFrontiers | src/analysis/dominator.c:207-236 | The filling traversal stores, for each block, the list the counts were made for, in full and in order |
| Frontiers.FrontierExact | src/analysis/dominator.c:186-198 | A block other than the entry is recorded for x iff x dominates a predecessor of it and does not strictly dominate it; the entry too, when no reachable block jumps to it |
| Frontiers.EntryMissing | src/analysis/dominator.c:184-195 | With such a jump the entry is in its own frontier and is not recorded there |
| Frontiers.FrontiersExactIff | src/analysis/dominator.c:181-199 | All frontiers are exact if and only if no reachable block jumps to the entry |
| Frontiers.InitDominatorTree | src/analysis/dominator.c:28-239 | The whole initialisation: the dominator tree, a child slice that holds exactly the blocks its owner immediately dominates, and a frontier slice that is the frontier of its owner, each block once |
| IntFold.FoldBinaryIsTwosComplement | src/opt/const_fold.c:22-101 | On operands sign-extended to the width, each of the fifteen binary folds is the two's-complement operation of that width, and is refused exactly for division by zero and the overflowing 64-bit signed division |
| IntFold.FoldBinaryOfInt64 | src/opt/const_fold.c:22-101 | On any int64 operands all folds but signed division and remainder are the operation of the low bits; AND, OR and XOR iff their result, which is not cut, fits the width |
| IntFold.UnaryMeans | src/opt/const_fold.c:9-20 | For every int64 operand the unary folds are the negation and complement of its low bits |
| IntFold.FoldCmpIsTwosComplement | src/opt/const_fold.c:103-123 | The compare folds are the signed and unsigned comparisons of the low bits, for all 64-bit operands |
| IntFold.BinaryFits | src/opt/common.c:27-31 | Every accepted result is sign-extended to the width again |
| IntFold.FoldRotrUndoesRotl | src/opt/const_fold.c:77-97 | Folding ROTL and then ROTR by the same amount is always accepted and gives the operand back |
| IntFold.FoldNeedsSignExtendedOperands | src/opt/const_fold.c:34-41 | An operand that is too wide: 200 at 8 bits is halved to 100 where the operation gives -28 |
| FoldSamples.BinarySamples | src/opt/const_fold.c:22-101 | The written-out 8-bit results of every binary operation on -7 and 3 |
| FoldSamples.CmpSamples | src/opt/const_fold.c:103-123 | The written-out results of every comparison of -7 with 3 |
| FoldSamples.SelfSamples | src/opt/const_fold.c:103-123 | Comparing a number with itself holds for exactly the five comparisons that admit equality |
| FoldSamples.UnarySamples | src/opt/const_fold.c:9-20 | The written-out results of negating and complementing -7 |
| FoldExact.FirstOperandIff | src/opt/const_fold.c:22-101 | An int64 first operand folds rightly with every second operand of the width if and only if it is of the width itself or the operation is none of DIV_S, REM_S, AND, OR and XOR |
| FoldExact.SecondOperandIff | src/opt/const_fold.c:22-101 | The same for the second operand, but for one divisor more: a remainder by 2^(w-1) is right too |
| Ir.RunFits | src/opt/common.c:5-19 | In every run the values of every environment fit the widths of their types |
| FunctionStore.Store.AppendInstruction | src/ir/function.c:135-180 | The linked lists and the operand pool then represent the old function with the instruction appended to the block |
| FunctionStore.Store.RemoveInstruction | src/ir/function.c:210-244 | Unlinking leaves lists that represent the old code without the instruction, emptied to NONE; a removed or unknown id changes nothing |
| FunctionStore.Store.ReplaceOperand | src/ir/function.c:182-191 | Exactly the one operand changes; out of range, nothing does |
| FunctionStore.Store.ReplaceAllUses | src/ir/function.c:193-208 | Every live instruction reads the new value where it read the old one, and nothing else changes |
| FunctionStore.Store.DropPhiIncoming | src/ir/function.c:410-444 | Each PHI at the start of the block loses exactly the pairs of the predecessor, by compaction of its slice in place; other slices of the pool keep their operands |
| FunctionStore.Store.DropEdge | src/ir/block.c:31-46 | Both edge lists lose one entry by swap removal |
| IrEdit.SwapRemoveMembers | src/ir/block.c:31-46 | In a list without duplicates, swap removal removes the entry and nothing else |
| IrEdit.DropPairsSelects | src/ir/function.c:424-440 | Dropping a predecessor's pairs does not change what a PHI selects for any other predecessor |
| IrEdit.DropPairsForgets | src/ir/function.c:424-440 | After the drop the PHI selects nothing for that predecessor |
| SccpLattice.EvalMonotone | src/opt/sccp.c:107-203 | Evaluation is monotone in the cells and in the executable edges, SELECT's inspection of its condition and PHI's of its edges included |
| SccpLattice.ComputeSound | src/opt/sccp.c:107-203 | What an instruction computes is denoted by the evaluation of cells that denote its operands |
| SccpPrecise.EvalIsExact | src/opt/sccp.c:107-203 | The evaluation is exact, operand by operand: a PHI is known to be c iff the inputs over marked edges that have been seen are all c and there is one; an operation on known operands of the width is its two's-complement result wherever the fold is not refused; a SELECT with a known condition has the cell of the operand it chooses |
| SccpSteps.VisitKeeps | src/opt/sccp.c:341-350 | Overwriting a cell without meeting it with the old value still only lowers it, keeps the invariant and settles the instruction |
| SccpSteps.VisitProgress | src/opt/sccp.c:344-349 | A visit that queues work uses up potential: a cell drops at most twice |
| SccpSteps.MarkProgress | src/opt/sccp.c:87-94 | Marking an edge uses up potential: each edge is marked at most once |
| SccpSteps.TerminatorKeeps | src/opt/sccp.c:205-261 | Evaluating a terminator keeps the invariant and marks the edges its condition's cell calls for |
| Sccp.Solver.Solve | src/opt/sccp.c:326-388 | Both worklists empty, and the facts then are a solution of the equations at or above every other solution, and precise: every visited cell is the exact one of its instruction, an edge is marked iff it leaves an executable block whose condition calls for it, a block is executable iff marked edges lead to it from the entry, and other cells are as at the start |
| SccpTight.VisitTight | src/opt/sccp.c:341-350 | A visit keeps every mark justified by the cells as they now are |
| SccpTight.PreciseAtRest | src/opt/sccp.c:330-388 | Justified marks and settled equations together give the exact account of cells, edges and blocks |
| Sccp.GreatestIsUnique | src/opt/sccp.c:330-388 | Two greatest solutions agree in cells, blocks and edges, so the order of the worklists does not show |
| SccpSound.StepSound | src/opt/sccp.c:107-261 | One step of a run from a state the facts describe leads to a state they describe |
| SccpSound.RunWithinSolution | src/opt/sccp.c:326-388 | In every run, the block is executable, the edge last taken is marked, and every value lies in the meaning of its cell |
| SccpShape.RewrittenInsts | src/opt/sccp.c:393-444 | What the two loops leave of each instruction, said in one formula: folded to a constant, or without the pairs of the edges dropped by decided branches, or a plain branch |
| SccpShape.RewrittenLists | src/opt/sccp.c:433-437 | What the loops leave of the edge lists: exactly the edges that no decided branch dropped |
| SccpApplied.RewriteApplies | src/opt/sccp.c:393-444 | All that the facts know is written in and nothing else changes: every known result becomes a CONST of it, every known branch a BRANCH to the target taken, its other edge leaves both lists, and each leading PHI selects nothing for an abandoned edge and what it did for the others |
| SccpTwins.RunUnchangedIff | src/opt/sccp.c:393-444 | A run that does not get stuck is unchanged by the pass if and only if it never reaches, from a decided branch with equal targets, a PHI that stays one and had an input for it |
| SccpTwins.SccpPreservesRuns | src/opt/sccp.c:393-444 | Unless such a PHI exists, every run that does not get stuck is unchanged by constant rewriting, branch folding and the dropping of PHI inputs, for all inputs and oracles |
| SccpTwins.EdgesKeptIff | src/opt/sccp.c:414-440 | Edge lists, predecessor lists and terminators still agree after the pass if and only if no branch it folds has equal targets |
| SccpPass.Rewrite | src/opt/sccp.c:393-444 | The two rewriting loops over the linked representation end in the rewritten function |
| SccpPass.Propagate | src/opt/sccp.c:263-463 | The whole pass: solve, then rewrite in place; the answer is the greatest solution and precise, all of it is written in, and runs are unchanged under the condition of SccpTwins |
| SccpWitness.TwinTargetsBreak | src/opt/sccp.c:426-437 | With both targets equal the pass can break a run: a function that returns its argument gets stuck at the PHI, at a solution of the equations |
| SccpAccept.ConstantBeforePhiIsRefused | src/opt/sccp.c:393-412 | A PHI with a constant cell in front of one without becomes a CONST in front of a PHI, which the validator refuses |
| SccpAccept.AcceptedAfterIff | src/opt/sccp.c:393-444 | The validator accepts the result of the pass on an accepted function if and only if no constant PHI precedes one that stays, cut-off blocks read nothing defined elsewhere, and PHI inputs defined elsewhere come from blocks that remain |
| SccpAccept.RemainsIsExecutable | src/opt/sccp.c:414-440 | A block that remains connected is executable when every executable branch has been decided or marked both ways, so the cut-off blocks are then the non-executable ones |
| SccpWitness.LatePhiIsRefused | src/opt/sccp.c:393-412 | A literal accepted function with a constant PHI before another, which the validator refuses after the pass |
| SccpWitness.CutOffIsRefused | src/opt/sccp.c:414-440 | A literal accepted function whose cut-off block reads a value of the entry, which the validator refuses after the pass |
| SccpWide.WideConstMisfolds | src/opt/sccp.c:96-116 | Without the hypothesis that immediates fit: a literal accepted function that halves an 8-bit CONST 200 returns -28, and at every solution it returns 100 after the pass |
| Validate.CheckOperand | src/ir/validate.c:143-204 | As long as no diagnostic was reported, an operand draws none iff its definition is in range and earlier in the block, dominating, or at the end of the PHI's predecessor |
| Validate.CheckInst | src/ir/validate.c:94-204 | The same for a whole instruction: linked, in its block, PHIs first and paired, every operand accepted |
| Validate.CheckBlock | src/ir/validate.c:65-219 | The same for a block, which also must end in a terminator and be empty only when inactive |
| Validate.ValidateFunction | src/ir/validate.c:35-226 | With a list the validator succeeds iff the declarative acceptance predicate holds, and then adds no diagnostic; without a list it only checks the entry block |
| ValidatePaths.UseOkIff | src/ir/validate.c:141-204 | An operand is accepted iff it is an argument or its definition stands on every way from the entry to the use, a PHI's at the end of the block its pair names |
| ValidatePaths.AcceptedIff | src/ir/validate.c:35-226 | A function whose records agree is accepted iff its entry has no predecessor, its blocks and instructions have the required shape, and every definition is in place in this sense |
| ValidateSound.AcceptedRunsReadKnownValues | src/ir/validate.c:141-204 | In every run of an accepted function every operand read, and every PHI input the taken edge selects, was computed before in that run |
| ValidateSound.AcceptanceTrustsDefinitions | src/ir/validate.c:154-164 | The validator trusts the definition that a value names: where that is wrong, an accepted function reads a value nobody computed |
| GvnKeys.EqualKeysComputeAlike | src/opt/gvn.c:76-130 | Instructions with equal keys, swapped operands of commutative operations included, compute the same value in every environment |
| GvnComplete.KeyEqualIff | src/opt/gvn.c:76-130 | Keys are equal iff operation, type and operands are, none of them a global, or a commutative pair with a value in it is turned around |
| GvnComplete.CommutesIff | src/opt/common.c:75-92 | Among the integer operations the commutative ones are those whose operands may be turned around at every width |
| GvnComplete.CandidateKinds | src/opt/gvn.c:19-74 | Every integer operation, every comparison and SELECT is a candidate |
| GvnSound.RunHolds | src/opt/gvn.c:167-200 | In every run, below a candidate its result equals its operation on the current environment, in the current loop iteration |
| GvnSound.RunShares | src/opt/gvn.c:171-192 | In every run, below the later of two candidates with equal keys, the first above the second, the two results are equal |
| GvnRename.RenameKeepsEnds | src/opt/gvn.c:190-190 | Reading the earlier result instead of the later one keeps how every run ends |
| RunEdits.RemoveKeepsEnds | src/ir/function.c:210-244 | Removing an instruction without effects whose result nobody reads keeps how every run ends |
| RemoveAccept.RemoveKeepsAccepted | src/ir/function.c:210-244 | The validator accepts the function without such an instruction |
| GvnStep.ShareKeeps | src/opt/gvn.c:188-192 | One replacement and removal keeps the function accepted, its candidates whole, and how every run ends |
| Gvn.MatchShares | src/opt/gvn.c:171-186 | A table entry the search settles on belongs to an instruction above the current one with an equal key |
| Gvn.TableAfterShare | src/opt/gvn.c:188-192 | Table entries made before a replacement, stale keys included, still describe the function after it |
| Gvn.GvnKeepsRuns | src/opt/gvn.c:138-214 | For every integer function the validator accepts, the value-numbered function is accepted again and every run that ends, ends the same way |
| GvnComplete.NumberingIsComplete | src/opt/gvn.c:138-214 | Where block ids follow dominance, no candidate of the value-numbered function stands below another with the same expression, earlier in its block or in a dominating one |
| GvnComplete.UnchangedIff | src/opt/gvn.c:138-214 | So the pass leaves a function as it is iff no expression stands below an equal one |
| GvnComplete.NumberingIsIdempotent | src/opt/gvn.c:138-214 | And a second run changes nothing |
| GvnOrder.IdsMatter | src/opt/gvn.c:159-204 | Where ids do not follow dominance it may leave one: a literal accepted function with an expression below an equal one, which the pass returns unchanged |
| GvnPass.Run | src/opt/gvn.c:138-214 | The pass over the linked representation, with one growing table and the dominator tree of the start, ends in the value-numbered function, and where ids follow dominance no expression is left below an equal one |
| Bits.SetBit | src/analysis/liveness.c:9-14 | Setting a bit adds one value to one row and changes no other row |
| Bits.MergeRow | src/analysis/liveness.c:107-111 | The word loop adds to the current row exactly the source row without the masked row |
| LivenessPass.Pass | src/analysis/liveness.c:64-149 | A backward pass over all blocks keeps the rows below the exact ones, and either grows them or leaves the equations solved |
| Liveness.LeastIffSound | src/analysis/liveness.c:91-149 | A solution of the row equations is the least one iff each of its bits is there because of a path |
| LivenessRuns.LiveRowsMean | src/analysis/liveness.c:52-149 | For every function the least solution's live-out row of a block holds v iff a path from the block leads to an instruction other than a PHI that has v as an operand, or across an edge for which a leading PHI names v, with no definition of v on the way; the live-in row likewise |
| LivenessRuns.ReadIsLive | src/analysis/liveness.c:64-149 | In every run of an accepted function: what is read after a block is left, a PHI's choice on the edge taken, and has not been written since, lies on such a path |
| LivenessPass.Compute | src/analysis/liveness.c:23-155 | The bitset computation ends with the least solution; its rows are exact by these paths, and for an accepted function the live-out rows hold whatever a run reads after a block without having written it since |
| LivenessPass.Query | src/analysis/liveness.c:167-183 | The query answers the bit of the row, and false past the last block |
| LivenessPass.QueryPastRow | src/analysis/liveness.c:171-173 | A value past the row's end is answered by the next block's row |
| LivenessEntry.OnlyArgumentsLiveAtEntry | src/analysis/liveness.c:52-149 | In an accepted function only arguments can be live at the entry |
| UseDef.Build | src/analysis/use_def.c:9-87 | Definitions and the packed use slices are those of the function, counting and filling passes agreeing |
| UseDef.UsesExact | src/analysis/use_def.c:60-84 | A use is listed iff a live instruction has that operand |
| UseDef.UsesOrdered | src/analysis/use_def.c:60-84 | Uses are listed in order, hence once each |
| UseDef.UsersAreUsers | src/opt/sccp.c:360-365 | Where the live instructions are the linked ones, the slices are the user lists the constant propagation needs |
| DcePass.DropOperands | src/opt/dce.c:76-95 | Taking a dead instruction's operands off keeps the counts equal to the uses outside it and queues exactly the pure definitions that lost their last reader |
| DceSilent.IdleIsPure | src/opt/dce.c:10-27 | An instruction that is never seen from outside and always goes on to the next one, has a result and is not volatile, is one the pass may remove |
| DcePass.Run | src/opt/dce.c:29-109 | The worklist loop removes unread pure instructions one by one, and what is left is the greatest set in which every pure result has a surviving reader; no silent instruction without a reader is left |
| Dce.ReadIffCounted | src/opt/dce.c:43-46 | A value is read by a live instruction iff its count is positive |
| Dce.RemovalsKeepEnds | src/opt/dce.c:69-97 | Every run that ends, ends in the same way after any sequence of such removals |
| Dce.RemovalsKeepAccepted | src/opt/dce.c:69-97 | The validator accepts what is left of an accepted function |
| Dce.RemovalsArePruning | src/opt/dce.c:69-97 | A sequence of removals is determined by the set it removes |
| Dce.GreatestUnique | src/opt/dce.c:52-97 | There is one greatest closed set |
| DceOrder.MaximalIffGreatest | src/opt/dce.c:52-97 | A sequence of removals of unread pure instructions cannot be extended if and only if what it leaves is the greatest closed set |
| DceOrder.OrderIndependent | src/opt/dce.c:52-97 | So any two orders of removing unread pure instructions until none is left end in the same function |
| NyirWriter.Writer.U32 | src/nygen/nyir.c:39-45 | Appends the four bytes, low byte first |
| NyirWriter.Writer.WriteOperand | src/nygen/nyir.c:177-198 | Appends the operand's encoding; a float's bits overwrite eight zero bytes |
| NyirWriter.SerializeModule | src/nygen/nyir.c:263-289 | The writer's buffer is the encoding of the module |
| NyirReader.Reader.U64 | src/nygen/nyir.c:92-100 | Reads eight bytes as one number and advances past them, or fails |
| NyirReader.Reader.Payload | src/nygen/nyir.c:413-449 | Reads what the operand kind carries and refuses references out of bounds |
| NyirReader.DeserializeModule | src/nygen/nyir.c:619-702 | The reader that advances a position accepts and returns what the decoding function says, for all byte strings, valid or not |
| NyirRoundTrip.FunctionBack | src/nygen/nyir.c:453-617 | An in-limit function followed by anything is read back, and exactly its bytes are consumed |
| NyirRoundTrip.RoundTrip | src/nygen/nyir.c:619-702 | Reading the encoding of an in-limit module that a given predicate, in the validator's place, accepts consumes all bytes and gives the module back, a global without bytes with size 0 |
| NyirRoundTrip.EncodingIsInjective | src/nygen/nyir.c:263-289 | Distinct in-limit modules never share an encoding |
| NyirDecoded.DecodedRoundTrips | src/nygen/nyir.c:305-702 | Whatever the reader accepts is within its limits: written again and read again it is the same module |
| NyirBytes.ModuleIsWritten | src/nygen/nyir.c:135-289 | The encoding of a literal module with every kind of record and operand is a written-out list of bytes |
| NyirBytes.ModuleIsRead | src/nygen/nyir.c:305-702 | Those bytes are read as that module |
| NyirBytes.DecodedIdsInRange | src/nygen/nyir.c:305-617 | In whatever the reader accepts, every type, block, value, function and global id names something that is there, types counted from 10 on |
| HashTable.SysvHash | src/nylink/nylink_layout.c:17-26 | The loop computes the ABI's hash of the name |
| HashValue.StepMeans | src/nylink/nylink_layout.c:20-23 | A step shifts by four bits and xors the four bits that leave at the top into bits 4 to 7 of the other 28 |
| HashValue.HashMeans | src/nylink/nylink_layout.c:17-26 | The hash is below 2^28, and of a name whose bytes, as base-16 digits, add up to less it is that sum |
| HashValue.LongHash | src/nylink/nylink_layout.c:17-26 | The hash of a literal name whose sum is larger |
| HashTable.BuildTable | src/nylink/nylink_layout.c:777-799 | Heads and links name the nearest earlier index of their bucket |
| HashTable.ChainExact | src/nylink/nylink_layout.c:793-799 | A chain is strictly decreasing and holds exactly the indices whose names fall into its bucket |
| HashTable.OneChain | src/nylink/nylink_layout.c:793-799 | Every index but 0 is in exactly one bucket's chain |
| HashTable.HasName | src/nylink/nylink_layout.c:82-89 | The linear scan finds a name iff an index above 0 has it |
| HashTable.Lookup | src/nylink/nylink_layout.c:777-799 | The bucket and chain lookup of the System V ABI ends, finds a name iff the scan does, and finds its last index |
| DynPlan.InternedGives | src/nylink/nylink_layout.c:100-134 | Interning leaves each name imported once, in its place, and answers its index |
| DynPlan.NextKeepsCounts | src/nylink/nylink_layout.c:376-464 | Planning one relocation keeps planned entries equal to the entries needed, and the GOT numbering one-to-one |
| DynPlan.ConservedIff | src/nylink/nylink_layout.c:367-467 | The planned .rela.dyn entries are as many as a complete table has iff no import had a GOT slot before this layout; otherwise they are short by the number of those |
| DynPlan.SecondLayoutIsShort | src/nylink/nylink_layout.c:425-437 | One GOT load of a shared function, laid out twice: the second plan has no entry, and a complete table still has one |
| DynPlan.FirstLayout | src/nylink/nylink_layout.c:367-467 | After a first layout GOT and PLT indices are one-to-one onto 0..count-1, every slot belongs to the symbol its relocation names, and counts are conserved |
| DynKinds.PlannableIff | src/nylink/nylink_layout.c:376-464 | A layout is refused iff some relocation asks for a word outside the data section, or for the distance to data, of an imported symbol |
| DynKinds.PlansMean | src/nylink/nylink_layout.c:376-464 | Otherwise each relocation is planned by its kind and by how its symbol was resolved |
| DynLayout.Context.Intern | src/nylink/nylink_layout.c:100-134 | The table afterwards, and the index, are those of the specification |
| DynLayout.Context.PlanAll | src/nylink/nylink_layout.c:371-467 | The loop over arrays and counters computes the specified plan, and refuses exactly when a relocation is refused |
| DynApply.ImportsHaveEntries | src/nylink/nylink_layout.c:767-772 | Every import gets a .dynsym entry of its name |
| DynApply.PlannedIsPushed | src/nylink/nylink_reloc.c:241-278 | After a first layout no push overflows, and if no relocation is refused the pushes are exactly as many as planned |
| DynApply.LayoutFitsIff | src/nylink/nylink_reloc.c:35-205 | Any layout applied to a buffer of any capacity, none included: without refusals it gets through with a complete table iff the capacity is at least the planned entries and one for each GOT slot given out before, and it also gets through, without the GOT records, when there is no buffer and no relocation pushes an entry |
| DynApply.OwnBufferIff | src/nylink/nylink_reloc.c:68-205 | In a buffer made for this very layout it gets through iff no import had a GOT slot before or nothing was planned, and the table is complete iff the former |
| DynApply.GotRecordIsDropped | src/nylink/nylink_reloc.c:68-205 | The link laid out twice and then applied gets through and its GOT slot has no record; with the buffer of an application in between the record is pushed |
| DynApply.WordsNameTheirSymbol | src/nylink/nylink_reloc.c:251-259 | A pushed absolute word names by its index the symbol that its relocation names |
| DynApply.Tables.PushRela | src/nylink/nylink_reloc.c:35-42 | The record is stored iff there is room; the index advances either way |
| DynApply.Tables.ApplyImports | src/nylink/nylink_reloc.c:110-205 | Fails iff the GOT entries outnumber the table; otherwise they are stored in order and each PLT slot has its import's record, word and PLT entry |
| DynApply.Tables.ApplyRelocs | src/nylink/nylink_reloc.c:208-549 | Succeeds iff no relocation is refused, for its target, its plan or its range, and everything fits; the table holds all pushes in order |
| DynStub.StubReachesIff | src/nylink/nylink_reloc.c:116-170 | An entry of the PLT jumps to what its own word of .got.plt holds iff, on x86-64, the word is within 2 GB, and on AArch64 it is aligned, within 4 GB and not lower in its page than the entry in its own |
| DynStub.FirstPageMisses | src/nylink/nylink_reloc.c:116-144 | As .got.plt starts a page, no AArch64 entry in the page where the PLT starts jumps through its own word |
| DynLink.PltSlotBinds | src/nylink/nylink_reloc.c:110-188 | The JUMP_SLOT record of a PLT slot names the very word of .got.plt that leads back into the entry of the slot, and by its .dynsym index the import that owns the slot |
| DynLink.LayOutAndApply | src/nylink/nylink_reloc.c:44-551 | One layout and one application succeed iff every relocation can be planned and applied. Then every relocation is in bounds and reaches its symbol: a call through a PLT entry, word and JUMP_SLOT record of the symbol, a load through a GOT slot with a GLOB_DAT record for its address, a word by a record with its address, type, symbol and addend, or by a RELATIVE one with the symbol's address plus the addend; and the tables hold no more than was planned |
| BaseRelocs.Linker.RemoveDuplicates | src/nylink/nylink_emit_pe.c:145-152 | The pass that compares neighbours in the array it overwrites keeps the first of each run |
| BaseRelocs.UniqueIsAscending | src/nylink/nylink_emit_pe.c:145-152 | What it keeps of a sorted list is strictly ascending and has the same elements |
| BaseRelocs.Linker.Build | src/nylink/nylink_emit_pe.c:137-205 | Sorting, compacting and packing leave the RVAs sorted once each and return their packed section |
| BaseRelocs.PackedReadsBack | src/nylink/nylink_emit_pe.c:160-196 | The loader's walk over the packed section gives back exactly the RVAs: one block a page in ascending order, 4-byte multiples that sum to the output |
| BaseRelocBytes.SectionIs | src/nylink/nylink_emit_pe.c:160-196 | The section of three literal addresses in two pages is a written-out list of bytes |
| BaseRelocs.SectionKeepsRvas | src/nylink/nylink_emit_pe.c:137-205 | For every input list the section relocates the same set of RVAs, ascending and each once |
| Resolve.FindSymbol | src/nylink/nylink_context.c:522-546 | The loop finds the first static global definition, else its last candidate |
| Resolve.FoundIsBestIff | src/nylink/nylink_context.c:522-546 | Lookup finds the first static global, else first static weak, else first dynamic, else first reference of the name, if and only if a static local does not come first among symbols of the name that include a definition but no static global |
| Resolve.FoundIsBest | src/nylink/nylink_context.c:522-546 | So it does whenever no defined static local has the name |
| Resolve.LocalHides | src/nylink/nylink_context.c:530-543 | A defined static local hides a later weak definition |
| Resolve.Collect | src/nylink/nylink_context.c:355-421 | The one-pass fold keeps for each name the symbol of the specification, each name once, and reports the duplicates |
| Resolve.ResolutionIsLookup | src/nylink/nylink_context.c:355-421 | For a name without local symbols resolution ends on the symbol that lookup finds |
| Resolve.DuplicateIff | src/nylink/nylink_context.c:406-411 | A duplicate is reported for a name iff it has two static global definitions |
| Resolve.MissingIff | src/nylink/nylink_context.c:423-435 | The symbol kept for a name is missing iff the name has no definition, its first reference is strong and the output is not shared |
| Resolve.UndefinedIff | src/nylink/nylink_context.c:423-435 | The diagnostics report a name undefined for an object iff this is so and the first reference is that object's |
| Resolve.ReferenceOrderMatters | src/nylink/nylink_context.c:373-381 | So the order of a weak and a strong reference decides whether a missing definition is an error |
| Resolve.ResolveSymbols | src/nylink/nylink_context.c:335-468 | Succeeds iff there is no diagnostic, and then every symbol is resolved as its name's kept symbol |

## Left out

- Floating point: float constants are opaque bits and the pass theorems ask for functions without them, because the lattice and the keys compare doubles with `==`.
- SWITCH terminators get a run stuck, and values of the constant kind are excluded by the hypotheses of the pass theorems.
- SccpTwins.SccpPreservesRuns: runs that get stuck in the original are not compared.
- SccpAccept.AcceptedAfterIff: asks that edge lists have no duplicates and that no PHI has a value where a block label belongs; the validator checks neither.
- FunctionStore.Store.DropPhiIncoming: asks for PHIs with an even number of operands. With an odd number the code at `src/ir/function.c:434-437` copies an operand from past the end of the slice; the pass itself never makes such a PHI and the validator refuses it.
- SccpPass.Propagate: asks that PHIs have an even number of operands, and takes the function value its store represents as a parameter beside the store, for the solver to read.
- SccpPass.Rewrite: asks that PHIs have an even number of operands.
- IntFold.FoldBinaryOfInt64: leaves out signed division and remainder; for one operand of any width against all of the width, FoldExact.FirstOperandIff and FoldExact.SecondOperandIff say when they fold rightly.
- SccpLattice.ComputeSound: asks that immediates and operands are of the width (`SccpLattice.IntegerFunction`). The code does not sign-extend immediates (`src/opt/sccp.c:97` and `src/opt/sccp.c:113`), the validator does not look at them, and SccpWide.WideConstMisfolds shows what then goes wrong.
- Gvn.GvnKeepsRuns: asks that candidates have at most three operands and are well typed; the key looks at three operands only, and on ill-typed operands widths could differ.
- ValidateSound.AcceptedRunsReadKnownValues: asks that edge lists agree with terminators, list members name their block and values name the instruction that has them as result; the validator checks none of these (see ValidateSound.AcceptanceTrustsDefinitions).
- Validate.CheckInst: works on the lists as sequences, so the check of `prev` links is not modelled.
- Validate.ValidateFunction: asks for successor and predecessor lists that mirror each other, as the dominator tree it queries does. It works on the lists as sequences, so the check of `prev` links and lists that do not end are not modelled, and one diagnostic kind stands for each message text.
- LivenessPass.Query: the value is not checked against the value count, as in the code; LivenessPass.QueryPastRow says what is answered instead.
- NyirRoundTrip.RoundTrip: the validator is a parameter, and capacities, source locations and the `init_size` of a global without bytes are not carried.
- NyirReader.DeserializeModule: diagnostics are not modelled, a truncated type name always fails (the code then reads an uninitialised length), and a float is its 64 bits.
- HashTable.BuildTable: names are sequences of bytes without a terminator, and the table is a sequence of words rather than bytes.
- DynPlan.FirstLayout: the index 0xFFFFFFFF that stands for "no slot" is an option here, so links with that many imports are not modelled.
- DynApply.Tables.ApplyRelocs: whether a relocation that patches an instruction passes its range and alignment checks is a parameter (that its target is known under its plan is not); section bytes, the first PLT entry and 64-bit wrap-around of addresses are not modelled. Records are values, not their 24 bytes, and a PLT entry is its instructions' operands or words.
- BaseRelocs.Linker.Build: `qsort` is an insertion sort given as a function; the growth of the buffer's capacity is not modelled.
- GvnComplete.NumberingIsComplete: asks that a block's strict dominators have smaller ids, as the walk is in order of ids; GvnOrder.IdsMatter shows why.
- ValidatePaths.AcceptedIff: asks that list members name their block and that values name the instruction that has them as result, which the validator trusts.
- DynLink.LayOutAndApply: what names a symbol is said for a .dynsym that starts with its null entry, as the layout's does.
- Trapping divisions: dead-code elimination and folding are stated for runs that end; a division that traps gets a run stuck, so removing one may let a run go on.
- Signed overflow and shifts of negative numbers in C are read as wrapping. The remainder of INT64_MIN by -1, which the fold does not guard, is the mathematical one.
- The rewriting loop of `src/opt/const_fold.c`, copy propagation, block merging, `cfg_simplify` and canonicalisation: the first adds little to the fold theorems, and merging does not rename PHI block labels in successors, so a theorem about it would need heavy side conditions.
- The analysis manager: passes take a fresh analysis of the current function as a precondition.
- The text parser and dumper, machine lowering, register allocation, encoders, the JIT, object and archive parsing, ELF and PE headers, symbol extraction from archives during resolution, file output, allocation failures and the command line.
