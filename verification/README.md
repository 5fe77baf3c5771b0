# NewBCPL: models and proofs of the compiler's core

A Dafny model of the parts of a BCPL-to-ARM64 compiler that analyse and transform programs, with proofs of what
they promise. Run `dafny verify dfyconfig.toml` to check everything.

Shared base: `Ast` (64-bit wrapping integer expressions with TRUE as -1, structured statements, stores), `Text`
(numbers as text) and `Wrappers`.

- **Graph building** (`StructuredSemantics`, `Machine`, `CfgLowering`, `CfgShape`, `CfgCorrectness`, `CfgTheorems`,
  `CfgEmission`, `CfgBuilder`, `ForLoops`). The structured meaning of statements is defined on its own. `Machine` runs a graph by
  choosing the branch of a block from its last statement and its successor list only, as the code generator does. The
  graph of every body does what the body means, ends when it ends and diverges when it diverges. The class `Builder`
  updates blocks, the current block and the stacks of jump targets in place and is proved equal to the lowering function.
- **Block order** (`ReversePostOrder`), **liveness** (`BlockEvents`, `Liveness`, `LivenessSoundness`). The fixpoint loop terminates in the
  least solution, which is the set of variables used on some path before being defined. Live sets decide runs when the use
  and def sets of the blocks are safe, and it is proved exactly when they are.
- **Local common subexpressions** (`CseKey`, `LocalCse`, `LocalCseEffect`, `LocalOptimizer`, `OptimizedLowering`). The textual key is
  faithful, invalidation by substring is exact, and whole runs of the optimised graph agree with the original, down from
  the structured body.
- **Peephole rewriting** (`PeepholePatterns`, `PeepholeMachine`, `PeepholeWindows`, `PeepholePass`, `PeepholeEnding`,
  `PeepholeMeaning`, `PeepholeEffect`, `PeepholeOptimizer`). For each pattern the exact condition under which its replacement is right;
  passes that meet it keep registers and memory at every label, branch, call and end. For which code any number of passes
  comes to an end, exactly, and how much the passes can do.
- **Expressions** (`ExpressionSyntax`, `ExpressionRoundTrip`, `ExpressionBrackets`, `OperatorGrouping`, `ExpressionParser`). A
  printer that writes no bracket without need is the specification of the precedence-climbing parser; how operators group
  is stated by classes of operators written out as sets.
- **Registers** (`RegisterCache`, `RegisterChoice`, `RegisterSession`, `RegisterManager`), **linear scan** (`LinearScan`,
  `LinearScanEvictions`, `LinearScanClasses`, `LinearScanAllocator`). Write-back caching of variables in registers over every sequence of requests, and interval
  allocation.
- **Constant folding** (`ConstantFolding`, `FoldingReach`, `FoldingPass`), measured by the folder's own table of operators and
  by the instructions that are generated for them (`GeneratedOperators`); `OperatorResults` says what each operator gives
  without computing it.
- **List literals** (`ListLiterals`, `ListSharing`, `ListLayout`, `ListDecoding`, `ListLabels`, `ListImages`,
  `ListGenerator`), from the
  nested literal to the words a reader finds after linking.
- **Call frames** (`CallFrame`, `FrameManager`) and **UTF-8** (`Utf8`; section 3 of RFC 3629).

In the structured meaning a FOR evaluates its end and step anew on each turn and is left when the variable is greater than
the end, also for a negative step, because that is what the builder lays down (CFGBuilderPass.cpp:367-423). Expressions
have the values of `Ast.Eval`, the table of the constant folder, in the graph and in the structured meaning alike.

Classes stand where the original updates objects in place; each of their methods is proved against a function on values,
and the theorems are about those functions.

## What the proofs found

Where a promise does not hold, the code is modelled as it is, a lemma gives the input, and the exact condition is proved.
For common subexpressions and for the map of known constants the condition is sufficient only.

- Peephole: patterns match without looking at widths, and a scaled load keeps its index in the first source register
  while the matcher checks the second. `WindowIsSoundExactly` has the condition for each pattern.
- Peephole: a transformer that hands back its own window makes the pass repeat for ever (`ReloadNeverEnds`);
  `PassEndsExactly` and `OptimizeEndsExactly` say for which code. This and the point above are about the public factories
  `PeepholeOptimizer::create…Pattern`. The constructor registers another set (PeepholeOptimizer.cpp:32-51), whose
  load-after-store pattern drops the load and does not repeat for ever.
- Common subexpressions: unary and conditional expressions all have the key `(EXPR)`, so different ones are merged
  (`OpaquePartsAreMerged`, `KeyDeterminesExactly`), and an assignment to a variable in them invalidates nothing. The
  elimination is right when no temporary is used for an expression other than its own, up to the order of operands, or
  after a variable of it has been assigned (`FitBlock`); without unary and conditional parts that never happens.
- Liveness: an assignment nested in an IF, FOR or SWITCHON counts as a definition of the header's block
  (`NestedDefinitionHidesUse`); the analysis runs behind the elimination and passes over its LETs
  (`HoistedReadsAreMissed`).
- Constant folding: the folder's table is not the code generator's. Comparisons are set as 1 and not as -1, the literal
  TRUE is loaded as 1, right shifts shift in zeros, and for bitwise OR and NEQV no instruction is emitted. Logical AND and
  OR only work when they are folded: the encoder refuses the shifts 1, 2 and 3 with which the result of OR is loaded
  (NewCodeGenerator.cpp:404-406, encoders/create_movk_imm.cpp:31-34), and the labels of AND are written as directives whose
  text is dropped, so nothing defines them for the linker (NewCodeGenerator.cpp:373-377, encoders/enc_create_directive.cpp:4-19,
  Linker.cpp:162). See `TablesAgreeExactly`, `RunsExactly`, `ShiftIsFoldedOtherwise`, `ComparisonIsFoldedOtherwise`,
  `TruthIsFoldedOtherwise`, `OrIsOnlyFolded`.
- Constant folding: the map of known constants survives an untaken branch and a multiple assignment
  (`UntakenBranchIsBelieved`, `DoubleAssignmentIsMissed`).
- Parser: bitwise AND has no precedence, so no text parses to it (`ParsesExactly`).
- Registers: releasing a variable drops a dirty value (`DropIsSafeExactly`).
- Linear scan: the interval that loses its register keeps its old record (`EvictionSpoils`, `ScanIsRightExactly`).
- Call frame: a spill slot asked for before the prologue lies on the saved frame pointer (`EarlySlotCollides`), and spill
  slots and the frame's own slots are all apart exactly when there is none (`SpillsStayApartExactly`). The compiler itself
  asks for slots behind the prologue only (NewCodeGenerator.cpp:1543).
- Call frame: the epilogue pops sixteen bytes whatever the size of the frame (`StackIsRestoredExactly`).
- UTF-8: longer forms than needed, surrogates and cut-off characters are decoded without an error
  (`EncodingUndoesDecoding`, `OverlongIsAccepted`, `CutOffIsAccepted`).

## Model

| member | source | states |
|---|---|---|
| `CfgTheorems.LoweringIsCorrect` | CFGBuilderPass.cpp:205-633 | the graph of a body, run with the generated branches, ends in a store exactly when the structured body ends in that store |
| `CfgTheorems.LoweringKeepsDivergence` | CFGBuilderPass.cpp:205-633 | the graph runs for ever exactly when the body does |
| `CfgTheorems.GraphSimulates` | NewCodeGenerator.cpp:1749-2049 | for every body, store and amount of fuel there is a run of the graph with the outcome of the body: the same final store for a normal end and a RETURN, falling off a block for a jump without a target, and at least as many steps as fuel when the fuel is used up |
| `CfgTheorems.StopExplained` | NewCodeGenerator.cpp:1749-2049 | whatever stops a run of the graph, the body stops for the same reason with the same store |
| `CfgTheorems.RunsAreSafe` | NewCodeGenerator.cpp:1749-2049 | no run meets the generator's error for an unrecognised conditional; a run falls off a block only when some BREAK, LOOP or ENDCASE has no target |
| `CfgTheorems.ScopedOutcome` | CFGBuilderPass.cpp:639-641 | a well-scoped statement breaks or loops only inside a loop and ends a case only inside a SWITCHON |
| `CfgTheorems.GraphIsShaped` | CFGBuilderPass.cpp:205-268 | in a finished graph the number of successors of every block fits its last statement |
| `CfgTheorems.GraphIsMirrored` | ControlFlowGraph.cpp:95-100 | in a finished graph successor and predecessor lists record the same edges, equally often |
| `CfgTheorems.LowerMirrors` | ControlFlowGraph.cpp:95-100 | every lowering keeps the two edge lists mirrored, from any state of the builder |
| `CfgShape.LowerKeeps` | CFGBuilderPass.cpp:305-641 | every lowering keeps the builder's invariant (open block without successors, empty exit block, closed blocks shaped by their last statement) and changes nothing but the open block and new ones |
| `CfgShape.LowerIfKeeps` | CFGBuilderPass.cpp:346-365 | the same for IF: the join block is untouched until the arm is done |
| `CfgShape.LowerForKeeps` | CFGBuilderPass.cpp:367-423 | the same for FOR: increment and exit blocks are untouched until the body is done |
| `CfgShape.LowerSwitchKeeps` | CFGBuilderPass.cpp:569-633 | the same for SWITCHON: one successor per case, the default if there is one, and the join, in that order |
| `CfgShape.JumpKeeps` | CFGBuilderPass.cpp:639-641 | a jump closes the open block with at most one edge and leaves no current block |
| `CfgShape.ReturnKeeps` | CFGBuilderPass.cpp:473-482 | RETURN closes the open block with an edge to the exit block, made on first need |
| `CfgCorrectness.Simulation` | CFGBuilderPass.cpp:305-641 | from the end of the open block, in any finished graph that extends the state, a run does what the statement means and arrives where the builder goes on or where the jump leads |
| `CfgCorrectness.SimIf` | NewCodeGenerator.cpp:1749-2049 | an IF header branches to the arm or to the join |
| `CfgCorrectness.SimFor` | CFGBuilderPass.cpp:367-423 | a FOR initialises, and its header, body and increment blocks then go round as the loop does |
| `CfgCorrectness.LoopPass` | NewCodeGenerator.cpp:1749-2049 | one turn of a FOR: test, body, increment, back to the header; BREAK leaves and LOOP goes to the increment |
| `CfgCorrectness.SimSwitch` | NewCodeGenerator.cpp:1749-2049 | a SWITCHON header compares in order and reaches the first matching case, the default, or the join |
| `CfgCorrectness.SimLet` | CFGBuilderPass.cpp:305-330 | declared names get their values one after another |
| `CfgEmission.EmissionFailsExactly` | NewCodeGenerator.cpp:1749-2049 | code generation of a finished graph reports an error exactly when some assignment, dead code included, has unequal sides or some case has no constant |
| `CfgEmission.LowerAdds` | CFGBuilderPass.cpp:305-641 | lowering a statement adds exactly that statement's own conditions |
| `CfgBuilder.Builder.constructor` | CFGBuilderPass.cpp:19-28 | the builder starts empty |
| `CfgBuilder.Builder.CreateBlock` | ControlFlowGraph.cpp:87-93 | a new block with no statements and no edges |
| `CfgBuilder.Builder.AppendStatement` | CFGBuilderPass.cpp:332-337 | a statement goes to the end of the open block, which is opened if there is none |
| `CfgBuilder.Builder.EndCurrentBlockAndStartNew` | CFGBuilderPass.cpp:69-103 | the open block is closed with an edge to a fresh one |
| `CfgBuilder.Builder.FlowInto` | ControlFlowGraph.cpp:95-100 | an edge from the open block, if there is one |
| `CfgBuilder.Builder.Visit` | CFGBuilderPass.cpp:305-641 | the whole new state is that of the lowering function, for every statement |
| `CfgBuilder.Builder.VisitLet` | CFGBuilderPass.cpp:305-330 | the same for LET |
| `CfgBuilder.Builder.VisitJump` | CFGBuilderPass.cpp:639-641 | the same for BREAK, LOOP and ENDCASE with the innermost target |
| `CfgBuilder.Builder.VisitReturn` | CFGBuilderPass.cpp:473-482 | the same for RETURN |
| `CfgBuilder.Builder.VisitIf` | CFGBuilderPass.cpp:346-365 | the same for IF |
| `CfgBuilder.Builder.VisitFor` | CFGBuilderPass.cpp:367-423 | the same for FOR; the target stacks end as they began |
| `CfgBuilder.Builder.VisitSwitchon` | CFGBuilderPass.cpp:569-633 | the same for SWITCHON; the target stack ends as it began |
| `CfgBuilder.Builder.VisitCompound` | CFGBuilderPass.cpp:495-525 | the same for compound statements and blocks |
| `CfgBuilder.Builder.BuildFunction` | CFGBuilderPass.cpp:205-268 | the blocks built for a function body are the graph of the lowering function |
| `CfgBuilder.LowerKeepsTargets` | CFGBuilderPass.cpp:367-423 | every lowering restores the stacks of jump targets |
| `Machine.ConditionalBranches` | NewCodeGenerator.cpp:1831-1843 | a conditional branch goes to the second successor when its condition code holds of the comparison with zero |
| `ForLoops.ForRunsThrough` | CFGBuilderPass.cpp:367-423 | a FOR without a step, whose body leaves the variable and the bound alone and goes on normally, begins its body with start, start plus one and so on up to the end, and with no other value |
| `ForLoops.TurnAdds` | CFGBuilderPass.cpp:404-415 | one turn adds exactly one to the variable, modulo 2^64, or the value of the step when one is given |
| `ForLoops.CountsUp` | CFGBuilderPass.cpp:367-423 | the k-th value the body is begun with is k more than the first one |
| `ForLoops.IncrementBlockAdds` | CFGBuilderPass.cpp:404-415 | the increment block of a finished graph adds one to the loop variable, or the step's value, and changes no other variable |
| `Ast.StoreHolds` | NewCodeGenerator.cpp:1749-2049 | of several targets assigned at once each gets its own value, the last one of a name deciding |
| `ReversePostOrder.BlocksInRpo` | ControlFlowGraph.cpp:110-127 | the listing holds exactly the blocks reachable from the entry, each once, entry first; an edge against the listing order lies on a cycle, so a graph without cycles is listed in topological order |
| `ReversePostOrder.Traversal.Dfs` | ControlFlowGraph.cpp:110-127 | one depth-first call finishes its block last, finishes only blocks reachable from it, and keeps the successors of finished blocks visited |
| `ReversePostOrder.AcyclicIsTopological` | ControlFlowGraph.cpp:110-127 | when edges against the order lie on cycles, every edge of a graph without cycles leads forward |
| `Liveness.LivenessAnalysis.RunDataFlowAnalysis` | live_run_data_flow_analysis.cpp:9-69 | the loop terminates for any order naming every block; then the in and out sets solve the equations, and a variable is in a block's in set exactly when some path uses it before defining it |
| `Liveness.LivenessAnalysis.Round` | live_run_data_flow_analysis.cpp:9-69 | a round that changes something shrinks what is missing; one that changes nothing has reached a solution |
| `Liveness.LivenessAnalysis.Update` | live_run_data_flow_analysis.cpp:9-69 | the out set is the union over the successors, the in set uses plus out minus defs, and a change is noticed exactly when the in set changes |
| `Liveness.LiveSolutionIsLeast` | live_run_data_flow_analysis.cpp:9-69 | a solution holding only live variables is below every other solution of the equations |
| `Liveness.SolutionHoldsLive` | live_run_data_flow_analysis.cpp:9-69 | every solution holds every live variable |
| `Liveness.UpdateKeepsRising` | live_run_data_flow_analysis.cpp:9-69 | recomputing a block only adds live variables and stays inside the universe of used names |
| `Liveness.OutOfMembers` | live_run_data_flow_analysis.cpp:9-69 | a variable is live out of a block exactly when it is live into one of its successors |
| `Liveness.LivenessAnalysis.AnalyzeBlock` | live_analyze_block.cpp:4-52 | for any statements, the use set of a block is exactly the variables some read of which has no definition before it, in the order of the source, and the def set exactly the variables some statement defines |
| `Liveness.LivenessAnalysis.ComputeUseDefSets` | live_analyze_block.cpp:4-52 | the same for all blocks |
| `Liveness.BlockSets` | LivenessAnalysisPass.cpp:99-213 | the same, as a lemma about the scan of a block |
| `Liveness.ScanRecords` | LivenessAnalysisPass.cpp:99-213 | the same for one statement of any kind, from any sets: FOR reads start, end, step and then its body, SWITCHON its selector, then the cases and the default |
| `BlockEvents.ExposedJoin` | LivenessAnalysisPass.cpp:18-50 | a read behind other statements counts exactly when none of them defines the variable |
| `Liveness.LivenessAnalysis.VisitExpr` | LivenessAnalysisPass.cpp:18-78 | a name read counts as used unless it is already defined |
| `Liveness.LivenessAnalysis.VisitAssignment` | LivenessAnalysisPass.cpp:26-41 | right-hand sides are read before the targets are defined |
| `Liveness.LivenessAnalysis.VisitStatement` | LivenessAnalysisPass.cpp:99-213 | any statement adds exactly the reads that no definition comes before, and the definitions, of its flattened form |
| `Liveness.LivenessAnalysis.RegisterPressure` | LivenessAnalysisPass.cpp:267-295 | the answer is the size of the largest in or out set |
| `LivenessSoundness.LiveVariablesDecideRuns` | live_run_data_flow_analysis.cpp:9-69 | for a solution over safe block sets, two stores agreeing on a block's live variables take the same blocks for ever and read the same values |
| `LivenessSoundness.PlainGraphsAreSound` | live_analyze_block.cpp:17-48 | the same for the sets the analysis itself computes, in graphs of plain assignments with a conditional branch at most at the end of a block |
| `LivenessSoundness.CoversExactly` | live_analyze_block.cpp:17-48 | a block's sets are safe exactly when they hold its reads and every name in its def set is assigned by the block itself or in its use set |
| `LivenessSoundness.PlainCovers` | LivenessAnalysisPass.cpp:18-50 | blocks of plain assignments ending in a conditional branch have safe sets |
| `LivenessSoundness.StepKeepsAlike` | LivenessAnalysisPass.cpp:210-213 | one step from stores that agree on what matters leads to the same place and stores that agree there |
| `LivenessSoundness.NestedDefinitionHidesUse` | LivenessAnalysisPass.cpp:99-102 | an assignment under an IF, counted for the header block, keeps the assigned variable out of the header's in set |
| `LivenessSoundness.HiddenUseDecides` | LivenessAnalysisPass.cpp:99-102 | although the value of that variable at the entry decides the result |
| `LivenessSoundness.GuardedGraphIsBuilt` | CFGBuilderPass.cpp:346-365 | the graph of that counterexample is the one the builder makes |
| `LivenessSoundness.HoistedReadsAreMissed` | live_analyze_block.cpp:17-48 | the reads of a hoisted common subexpression are in no use set |
| `CseKey.KeyIsFaithful` | LocalOptimizationPass.cpp:63-102 | when the first tree holds only names, literals and binary operators, two keys are equal exactly when the trees are equal up to swapping operands of the listed commutative operators |
| `CseKey.EqualKeysMeanEqualValues` | LocalOptimizationPass.cpp:63-102 | then equal keys give equal values in every store |
| `CseKey.KeyDeterminesExactly` | LocalOptimizationPass.cpp:63-121 | a key determines its tree up to that swapping exactly when no part of the tree has the catch-all key |
| `CseKey.KeysArePrefixFree` | LocalOptimizationPass.cpp:63-102 | no key is the beginning of another one |
| `CseKey.OrderIsHiddenExactly` | LocalOptimizationPass.cpp:63-102 | the order of two operands does not show in the key exactly when they have one key or the operator is one of the six listed as commutative |
| `CseKey.OccursExactly` | LocalOptimizationPass.cpp:246-255 | the text of a variable's key occurs in an expression's key exactly when the variable occurs in the expression |
| `LocalCse.EliminationIsCorrect` | LocalOptimizationPass.cpp:131-255 | the optimised graph reaches its end with the same value of every source variable as the original, from every store, and runs for ever exactly when the original does, as long as no temporary is used for another expression or after it has become stale |
| `LocalCse.AssignmentKeeps` | LocalOptimizationPass.cpp:165-244 | one assignment, with its hoisted declarations and replaced operands, keeps source variables equal and every temporary that is not stale holding the value of its expression |
| `LocalCse.HoistOneKeeps` | LocalOptimizationPass.cpp:165-244 | replacing one right-hand side by a temporary, old or new, keeps its value |
| `LocalCse.Survivors` | LocalOptimizationPass.cpp:246-255 | invalidation keeps exactly the entries whose key does not mention an assigned name |
| `LocalCse.SurvivorIsHeld` | LocalOptimizationPass.cpp:246-255 | a temporary of whose expression no variable is assigned still holds its value after the assignment |
| `LocalCse.VisitKeeps` | LocalOptimizationPass.cpp:154-163 | one block of the graph and its optimised form leave the same source variables and go the same way, although temporary names start afresh |
| `LocalCse.OptimizedExit` | NewCodeGenerator.cpp:1749-2049 | the branch at the end of an optimised block is chosen as before |
| `LocalCse.TransparentIsFit` | LocalOptimizationPass.cpp:165-255 | in a block that hoists nothing with a unary or conditional part no temporary is ever used for another expression or when it is stale |
| `LocalCse.OpaquePartsAreMerged` | LocalOptimizationPass.cpp:63-121 | two different unary expressions share a key and are merged, although their values differ in every store |
| `LocalCseEffect.StmtsCount` | LocalOptimizationPass.cpp:264-294 | an operation is counted as often as its key occurs in the flattened block |
| `LocalCseEffect.HoistableExactly` | LocalOptimizationPass.cpp:165-244 | a right-hand side is taken out exactly when it is an operation whose key occurs at least twice |
| `LocalCseEffect.UnchangedExactly` | LocalOptimizationPass.cpp:154-244 | a block stays as it is exactly when no right-hand side of an assignment occurs in it twice |
| `LocalCseEffect.NoRepeatIsLeft` | LocalOptimizationPass.cpp:165-244 | in the optimised block no assignment computes a right-hand side that occurred twice |
| `LocalCseEffect.SecondReadsTheTemporary` | LocalOptimizationPass.cpp:165-255 | two assignments of one operation: computed once, and read from the temporary twice, unless the variable assigned first occurs in it; then computed twice |
| `LocalOptimizer.LocalOptimizationPass.constructor` | LocalOptimizationPass.cpp:123-125 | the tables start empty |
| `LocalOptimizer.LocalOptimizationPass.Run` | LocalOptimizationPass.cpp:131-152 | the pass over all blocks gives the optimised graph |
| `LocalOptimizer.LocalOptimizationPass.OptimizeBasicBlock` | LocalOptimizationPass.cpp:154-163 | the block's statements become those of the specification |
| `LocalOptimizer.LocalOptimizationPass.OptimizeAssignment` | LocalOptimizationPass.cpp:165-244 | inserts in place before the assignment, which it changes in place; answers where the assignment stands now |
| `LocalOptimizer.LocalOptimizationPass.ReplaceExpression` | LocalOptimizationPass.cpp:165-244 | the same for one right-hand side |
| `LocalOptimizer.LocalOptimizationPass.CountExpression` | LocalOptimizationPass.cpp:264-294 | counts the key of every operation |
| `LocalOptimizer.LocalOptimizationPass.GenerateTempVarName` | LocalOptimizationPass.cpp:127-129 | numbered temporary names |
| `LocalOptimizer.LocalOptimizationPass.InvalidateExpressionsWithVar` | LocalOptimizationPass.cpp:246-255 | erases in place what mentions the name |
| `OptimizedLowering.LoweringAndEliminationAreCorrect` | LocalOptimizationPass.cpp:131-152 | graph building followed by the elimination: every source variable ends with the value the structured body gives it, and divergence is kept |
| `OptimizedLowering.GraphIsClean` | CFGBuilderPass.cpp:205-268 | the graph of a body over source names is one the elimination is correct for, when in each of its blocks temporaries are used for what they hold |
| `OptimizedLowering.StrictIsEnough` | LocalOptimizationPass.cpp:63-121 | a body that assigns nothing with such parts meets that condition |
| `PeepholeWindows.WindowIsSoundExactly` | PeepholeOptimizer.cpp:362-882 | for every matching window of encoded instructions, no program can tell the replacement from the window by registers or memory cells, exactly when a condition on the fields the matcher does not look at holds |
| `PeepholeWindows.GoodIsSound` | PeepholeOptimizer.cpp:362-882 | under that condition the replacement leaves the same machine state |
| `PeepholeWindows.BadWindow` | PeepholeOptimizer.cpp:362-882 | without it, a machine state from which a register or a memory cell ends differently |
| `PeepholeWindows.FoldingIsSound` | PeepholeOptimizer.cpp:656-708 | a constant with another one added, when the sum fits sixteen bits and the first keeps its value in the width of the sum |
| `PeepholeWindows.FoldingGoesWrong` | PeepholeOptimizer.cpp:656-708 | a negative constant moved into a lower half and added to as a whole is folded wrongly |
| `PeepholeWindows.OnesAreSound` | PeepholeOptimizer.cpp:710-882 | identities, self moves and multiplication by two, on whole registers |
| `PeepholeWindows.NarrowGoesWrong` | PeepholeOptimizer.cpp:710-882 | on lower halves they are wrong: the upper half is no longer cleared |
| `PeepholeWindows.LoadAfterStoreIsSound` | PeepholeOptimizer.cpp:532-584 | a load behind a store of the same word |
| `PeepholeWindows.LoadAfterStoreGoesWrong` | PeepholeOptimizer.cpp:532-584 | unsound exactly for 32-bit accesses and an indexed load |
| `PeepholeWindows.RedundantLoadIsSound` | PeepholeOptimizer.cpp:362-406 | two loads of the same word |
| `PeepholeWindows.IndexesDiffer` | PeepholeOptimizer.cpp:362-406 | loads that differ in their index, or whose index the first one overwrites, are merged wrongly |
| `PeepholeWindows.DeadStoreIsSound` | PeepholeOptimizer.cpp:586-617 | two stores to the same place |
| `PeepholeWindows.DeadStoreGoesWrong` | PeepholeOptimizer.cpp:586-617 | dropping a 64-bit store before a 32-bit one leaves another value in the upper half of the word |
| `PeepholeEnding.PassEndsExactly` | PeepholeOptimizer.cpp:120-192 | a pass comes to an end exactly when no two neighbours of the code are stuck: matched, free of labels, and handed back unchanged by their transformer |
| `PeepholeEnding.OptimizeEndsExactly` | PeepholeOptimizer.cpp:59-118 | so many passes come to an end exactly when no pair is stuck and, for two passes or more, none is stuck once the instructions that vanish between them are gone |
| `PeepholeEnding.PassUncovers` | PeepholeOptimizer.cpp:120-192 | a pass leaves stuck neighbours behind exactly if the code had such a pair |
| `PeepholeEnding.HandedBackExactly` | PeepholeOptimizer.cpp:362-882 | which windows are handed back unchanged: a store and a load of the same register, an address in two steps, constants whose sum does not fit |
| `PeepholeEnding.ReloadNeverEnds` | PeepholeOptimizer.cpp:568-570 | wherever a register is stored and loaded again from the same place, the loop never reaches the end of the code |
| `PeepholeEnding.PassIsLocal` | PeepholeOptimizer.cpp:120-192 | what a pass makes of the rest of the code does not depend on what it has left behind |
| `PeepholePass.LoopEndsExactly` | PeepholeOptimizer.cpp:120-192 | the turns of the loop reach the end of the code exactly when the pass has a result |
| `PeepholePass.FinishedReachesEnd` | PeepholeOptimizer.cpp:120-192 | a finished pass has the code that the loop ends with |
| `PeepholePass.PassIsBounded` | PeepholeOptimizer.cpp:120-192 | the replacements a pass makes, and the weight it leaves, are bounded by the weight of the code |
| `PeepholePass.OptimizeIsBounded` | PeepholeOptimizer.cpp:59-118 | the same for all passes together |
| `PeepholePass.TransformLightens` | PeepholeOptimizer.cpp:362-882 | every replacement is the window itself or lighter |
| `PeepholeMeaning.GoodCodeKeepsPauses` | PeepholeOptimizer.cpp:59-192 | two conditions on the code alone, that it settles and that the patterns are right about whichever of its instructions come to stand together: the optimiser ends, and the result shows the same registers and memory at every label, branch, call and end, from every start |
| `PeepholeMeaning.OptimizeKeepsPauses` | PeepholeOptimizer.cpp:59-192 | the same when only the windows that are in fact replaced meet their condition |
| `PeepholeMeaning.UniformCodeKeepsPauses` | PeepholeOptimizer.cpp:59-192 | code that works on whole registers and words without index only has to settle |
| `PeepholeMeaning.RewriteKeeps` | PeepholeOptimizer.cpp:263-284 | one replacement, anywhere in a program: what it removes holds no label and refers to none |
| `PeepholeMeaning.SoundWindowKeeps` | PeepholeOptimizer.cpp:270-284 | replacing a window by one of the same effect changes nothing seen from outside, from the start or from any label |
| `PeepholeOptimizer.Optimizer.constructor` | PeepholeOptimizer.cpp:28-53 | nothing applied yet |
| `PeepholeOptimizer.Optimizer.FindPattern` | PeepholeOptimizer.cpp:120-192 | the first pattern, in order, that matches and keeps labels |
| `PeepholeOptimizer.Optimizer.ApplyOptimizationPass` | PeepholeOptimizer.cpp:120-192 | for code without stuck neighbours: erases and inserts in place as the pass specification says, and answers whether anything was applied |
| `PeepholeOptimizer.Optimizer.Run` | PeepholeOptimizer.cpp:59-118 | for code that settles: passes until nothing changes or the limit; the count of replacements is bounded by the initial weight |
| `PeepholeEffect.MultiplicationByTwoIsAdded` | PeepholeOptimizer.cpp:710-751 | wherever the pass comes to a multiplication by the constant two, the register is added to itself instead |
| `PeepholeEffect.IdentityIsMoved` | PeepholeOptimizer.cpp:753-810 | adding or subtracting nothing and multiplying or dividing by one become a move, or nothing between equal registers |
| `PeepholeEffect.SubtractionOfItselfIsZero` | PeepholeOptimizer.cpp:753-810 | a register minus itself becomes the constant zero |
| `PeepholeEffect.SelfMoveGoes` | PeepholeOptimizer.cpp:864-882 | a move of a register to itself disappears |
| `PeepholeEffect.ConstantsAreAdded` | PeepholeOptimizer.cpp:656-708 | a constant and another one added to it become their sum if it fits sixteen bits |
| `PeepholeEffect.LoadOfStoredIsMoved` | PeepholeOptimizer.cpp:532-584 | a load of what the instruction before has stored becomes a move |
| `PeepholeEffect.SecondLoadIsMoved` | PeepholeOptimizer.cpp:362-406 | a second load from one place becomes a move, or nothing between equal registers |
| `PeepholeEffect.CoveredStoreGoes` | PeepholeOptimizer.cpp:586-617 | a store before another one to the same place disappears |
| `PeepholeEffect.ProtectedStays` | PeepholeOptimizer.cpp:247-284 | labels, data, comments, other segments and what refers to a label are left alone |
| `PeepholeEffect.PassedOverExactly` | PeepholeOptimizer.cpp:120-192 | an instruction is passed over exactly when it is protected or none of the nine patterns applies |
| `PeepholeEffect.NothingToDoExactly` | PeepholeOptimizer.cpp:120-192 | a pass changes nothing exactly when that holds of every instruction |
| `PeepholeEffect.OptimizeIsThorough` | PeepholeOptimizer.cpp:59-118 | the optimiser ends with nothing left to do, or after as many replacements as passes at least |
| `ExpressionRoundTrip.ParsingUndoesPrinting` | pz_parse_expressions.cpp:47-155 | parsing the minimally bracketed text of a tree gives the tree and leaves exactly the tokens behind it |
| `ExpressionBrackets.BracketsAreNeeded` | pz_parse_expressions.cpp:86-155 | where the text has brackets round a tree, any text read as that tree, before a token that binds as strongly, has brackets round the whole of it |
| `ExpressionBrackets.ParsedIsRead` | pz_parse_expressions.cpp:86-155 | every parsed tree has been read in this sense |
| `ExpressionBrackets.ExpressionStops` | pz_parse_expressions.cpp:86-155 | an expression ends before a token that binds no more strongly than its level |
| `ExpressionRoundTrip.ParsesExactly` | pz_parse_expressions.cpp:86-424 | a tree is the result of parsing some text exactly when it holds no bitwise AND and no negative literal |
| `ExpressionRoundTrip.PrintingIsInjective` | pz_parse_expressions.cpp:47-155 | different trees have different texts |
| `ExpressionRoundTrip.RoundTrip` | pz_parse_expressions.cpp:86-155 | for every level and every following operator, parsing the text gives the tree as left operand of what follows |
| `ExpressionRoundTrip.OperandRoundTrip` | pz_parse_expressions.cpp:86-155 | with nothing to bind behind it, exactly the tree is parsed |
| `ExpressionRoundTrip.ParsedIsPrintable` | pz_parse_expressions.cpp:86-424 | whatever parses can be printed |
| `ExpressionRoundTrip.SequenceRoundTrip` | pz_parse_expressions.cpp:331-359 | arguments and list members |
| `ExpressionRoundTrip.BracketsParse` | pz_parse_expressions.cpp:416-424 | a bracketed text parses to what it holds |
| `ExpressionRoundTrip.BitFieldParses` | pz_parse_expressions.cpp:86-155 | start and width of a bit field |
| `OperatorGrouping.TwoOperatorsGroup` | pz_parse_expressions.cpp:47-155 | x p y q z without brackets reads as x p (y q z) exactly when q is in a tighter class than p, and as (x p y) q z otherwise; the classes are written out as sets: OR, AND with bitwise OR, equivalences, comparisons, shifts, additive, multiplicative |
| `OperatorGrouping.ConditionalIsLoosest` | pz_parse_expressions.cpp:47-155 | the conditional is looser than all of them |
| `OperatorGrouping.ConditionalsGroupLeft` | pz_parse_expressions.cpp:86-155 | a conditional behind another one takes the whole of that as its condition |
| `OperatorGrouping.SubscriptIsTightest` | pz_parse_expressions.cpp:47-155 | subscripts are tighter than all of them |
| `OperatorGrouping.PrefixIsTighter` | pz_parse_expressions.cpp:86-155 | prefix operators take their operand before any operator of those classes |
| `OperatorGrouping.SubscriptBeforePrefix` | pz_parse_expressions.cpp:86-155 | but after a subscript |
| `OperatorGrouping.MinusNegates` | pz_parse_expressions.cpp:86-155 | the sign of subtraction in front of an operand negates it |
| `OperatorGrouping.BitwiseAndStops` | pz_parse_expressions.cpp:47-84 | bitwise AND between operands ends the expression |
| `OperatorGrouping.TypesAreNumbers` | pz_parse_expressions.cpp:160-329 | the names of types read as the numbers of their bits |
| `ExpressionParser.Parser.constructor` | Parser.cpp:62-73 | the cursor starts at the first token |
| `ExpressionParser.Parser.Advance` | Parser.cpp:236-243 | the cursor moves by one token |
| `ExpressionParser.Parser.Match` | Parser.cpp:245-251 | consumes the token exactly when it is there |
| `ExpressionParser.Parser.ParseExpr` | pz_parse_expressions.cpp:86-155 | the tree and the tokens left are those of the specification, and so are the failures |
| `ExpressionParser.Parser.ParseInfix` | pz_parse_expressions.cpp:86-155 | the loop over operators binds as the specification does |
| `ExpressionParser.Parser.ParseOneOperator` | pz_parse_expressions.cpp:86-155 | one operator with its right side |
| `ExpressionParser.Parser.ParsePrimaryExpr` | pz_parse_expressions.cpp:160-329 | operands, with the error for a token that starts none |
| `ExpressionParser.Parser.ParseMembersUpToBracket` | pz_parse_expressions.cpp:331-359 | members up to the closing bracket |
| `RegisterSession.ReadsFindLastWrite` | rm_acquire_reg_for_variable.cpp:6-53 | after any sequence of requests, reading a variable gives the value last written to it |
| `RegisterSession.SessionsStaySane` | rm_acquire_reg_for_variable.cpp:6-53 | any sequence of requests that loses nothing keeps the tables consistent, every latest value in its register or its own slot, and the list ordered by last use |
| `RegisterSession.ServeKeeps` | rm_acquire_reg_for_variable.cpp:6-53 | the same for one request |
| `RegisterSession.VariableIsServed` | rm_acquire_reg_for_variable.cpp:6-53 | a hit finds the value in the register, a miss finds it in the slot, and no other variable suffers |
| `RegisterSession.TempIsServed` | rm_acquire_spillable_temp_reg.cpp:6-32 | a temporary takes a register without losing a variable |
| `RegisterSession.ScratchIsServed` | RegisterManager.cpp:183-222 | so does a scratch register, also when it evicts |
| `RegisterSession.CalleeSavedIsServed` | rm_acquire_callee_saved_temp_reg.cpp:5-13 | so does a callee-saved temporary |
| `RegisterSession.VictimIsLeastRecent` | rm_acquire_reg_for_variable.cpp:6-53 | the register evicted is the one acquired longest ago |
| `RegisterSession.DropKeepsExactly` | rm_release_reg_for_variable.cpp:3-13 | dropping a variable keeps every latest value exactly when the slot holds its value: dirty registers are not saved |
| `RegisterSession.DropIsSafeExactly` | rm_release_reg_for_variable.cpp:3-13 | read off the tables alone: dropping is safe, whatever registers and memory hold, exactly when the register is not dirty |
| `RegisterCache.AcquireVariableKeeps` | rm_acquire_reg_for_variable.cpp:6-53 | variable map one-to-one and in step with the register table, list without repetition holding exactly the variable registers in use, slots apart |
| `RegisterCache.AcquireTempKeeps` | rm_acquire_spillable_temp_reg.cpp:6-32 | the same for temporaries |
| `RegisterCache.AcquireScratchKeeps` | RegisterManager.cpp:183-222 | the same for scratch registers |
| `RegisterCache.AcquireCalleeSavedKeeps` | rm_acquire_callee_saved_temp_reg.cpp:5-13 | the same for callee-saved temporaries |
| `RegisterCache.RoomExactly` | rm_acquire_reg_for_variable.cpp:6-53 | an acquire is possible exactly when some variable register is not taken as scratch |
| `RegisterCache.EvictKeeps` | RegisterManager.cpp:156-181 | eviction writes back exactly a dirty victim, to its own slot |
| `RegisterCache.NeedSlotKeeps` | CallFrameManager.cpp:100-116 | spill slots of different variables stay apart |
| `RegisterManager.Manager.constructor` | RegisterManager.cpp:68-121 | all registers free |
| `RegisterManager.Manager.FindFreeRegister` | RegisterManager.cpp:147-154 | the first free register of a pool |
| `RegisterManager.Manager.SpillLeastRecent` | RegisterManager.cpp:156-181 | takes the last register of the list and emits its store |
| `RegisterManager.Manager.AcquireRegForVariable` | rm_acquire_reg_for_variable.cpp:6-53 | tables, answer and emitted stores are those of the specification |
| `RegisterManager.Manager.AcquireSpillableTempReg` | rm_acquire_spillable_temp_reg.cpp:6-32 | the same |
| `RegisterManager.Manager.AcquireScratchReg` | RegisterManager.cpp:183-222 | the same, with the error when no register is left |
| `RegisterManager.Manager.AcquireCalleeSavedTempReg` | rm_acquire_callee_saved_temp_reg.cpp:5-13 | the same, with the error |
| `RegisterManager.Manager.ReleaseRegForVariable` | rm_release_reg_for_variable.cpp:3-13 | forgets the variable without a store |
| `RegisterManager.Manager.ReleaseScratchReg` | rm_release_scratch_reg.cpp:3-6 | frees a scratch register |
| `RegisterManager.Manager.SetDirty` | rm_mark_dirty.cpp:3-6 | sets the dirty flag |
| `RegisterChoice.ScratchChoice` | RegisterManager.cpp:183-222 | a scratch register is the lowest free one of X10 to X15, else the lowest free one of X20 to X27, else that of the least recent variable, saved if dirty; the error exactly when no register holds a variable |
| `RegisterChoice.VariableChoice` | rm_acquire_reg_for_variable.cpp:6-53 | a variable keeps its register, or gets the lowest free one of X20 to X27, or that of the least recent variable, which counts as spilled from then on |
| `RegisterChoice.ReleasedIsFree` | rm_release_scratch_reg.cpp:3-6 | a released scratch register is free, wherever it came from; a register that holds a variable stays with it |
| `ListImages.ListsAreReadBack` | DataGenerator.cpp:141-341 | for any list literals of any program whose labels and read-only words can be linked without them: labels and read-only words still link, and following head and next from the address of a literal's label finds its values in order, its length and its last node, and no other list |
| `ListImages.ProgramLinks` | Linker.cpp:66-196 | adding the collected lists to such a program defines no label twice and refers to no label that is not defined |
| `ListImages.StreamLinks` | Linker.cpp:66-196 | labels are defined and all read-only words relocated for a stream with fresh labels whose read-only words refer to labels of its own or of the runtime |
| `ListImages.ImageExactly` | Linker.cpp:143-196 | relocation succeeds exactly when every word of the read-only data can be patched |
| `ListImages.CollectedRefer` | DataGenerator.cpp:141-213 | a collected list refers to labels of collected lists only |
| `ListDecoding.LiteralsSurviveLinking` | DataGenerator.cpp:141-341 | in any linked stream, for any nested list, a reader of the linked words that follows head and next from the header's address finds the source values in order, the stated length, and the last node at the tail pointer; and nothing else can be read there |
| `ListDecoding.DecodesToOne` | DataGenerator.cpp:280-341 | an address decodes to at most one list |
| `ListDecoding.NodesRead` | DataGenerator.cpp:280-341 | the chain of a list's nodes holds its elements and ends at the tail |
| `ListDecoding.HeaderReads` | DataGenerator.cpp:280-341 | type, length, head and tail of a linked header |
| `ListDecoding.NodeReads` | DataGenerator.cpp:280-341 | tag, value or pointer, and next of a linked node |
| `ListDecoding.PointerReads` | Linker.cpp:143-196 | the two halves of a relocated pointer make up the address of its label |
| `ListLiterals.KeysAreInjective` | DataGenerator.cpp:33-57 | two lists share a key only if they are equal |
| `ListLiterals.AddListDescribes` | DataGenerator.cpp:141-213 | adding a list, shared or new, gives a header that describes it and leaves all earlier ones valid |
| `ListSharing.EqualListsShare` | DataGenerator.cpp:141-213 | two list literals of a program have the same label exactly when they are the same list |
| `ListSharing.SecondTimeAddsNothing` | DataGenerator.cpp:141-213 | collecting a list again adds nothing and answers the same label |
| `ListLayout.SegmentsAreApart` | Linker.cpp:66-124 | the read-only data begins at a page boundary of 4096 bytes, at least 16384 bytes behind the code, and no later than it has to |
| `ListLayout.SegmentLabelAddress` | Linker.cpp:66-124 | in every segment a label stands behind the words of its segment that come before it |
| `ListLayout.PointerTarget` | Linker.cpp:143-196 | a relocated pointer is the address of the runtime function of its name, else that of the label; an error exactly when there is neither |
| `ListLayout.CodeEndsExactly` | Linker.cpp:66-124 | the end of the code is where the first pass counts it |
| `ListLayout.LabelAddress` | Linker.cpp:66-124 | a label's address counts the words before it |
| `ListLayout.WordAddress` | Linker.cpp:143-196 | so does a word's, and the word is the relocated one |
| `ListLayout.BlockImage` | Linker.cpp:66-124 | the words behind a label lie one after another from the label's address |
| `ListLabels.CollectedListsLink` | DataGenerator.cpp:141-213 | the labels of collected lists are all different, so linking them reports no duplicate |
| `ListLabels.DefinedExactly` | Linker.cpp:66-124 | labels can be assigned exactly when none is defined twice |
| `ListLabels.NodesDiffer` | DataGenerator.cpp:141-213 | node labels differ from each other and from header labels |
| `ListGenerator.DataGenerator.constructor` | DataGenerator.cpp:89-96 | nothing collected yet |
| `ListGenerator.DataGenerator.GenerateListKey` | DataGenerator.cpp:33-57 | the loop over the elements builds the key |
| `ListGenerator.DataGenerator.AddListLiteral` | DataGenerator.cpp:141-213 | collection state and answer are those of the specification |
| `ListGenerator.DataGenerator.MakeNode` | DataGenerator.cpp:141-213 | one node, nested lists first |
| `ListGenerator.DataGenerator.Add` | InstructionStream.cpp:10-22 | appends a word |
| `ListGenerator.DataGenerator.AddData64` | InstructionStream.cpp:54-80 | appends the low half, then the high half |
| `ListGenerator.DataGenerator.EmitAbsolutePointer` | DataGenerator.cpp:16-31 | appends the two halves of an address to be relocated |
| `ListGenerator.DataGenerator.GenerateLists` | DataGenerator.cpp:280-341 | emits every collected list |
| `ListGenerator.Linker.constructor` | Linker.cpp:7 | no label, no word |
| `ListGenerator.Linker.AssignAddresses` | Linker.cpp:66-124 | label addresses are those of the specification; fails for a duplicate |
| `ListGenerator.Linker.PerformRelocations` | Linker.cpp:143-196 | the image is that of the specification; fails for an unknown label |
| `ListGenerator.Linker.Process` | Linker.cpp:24-42 | after both passes the stream is linked |
| `LinearScan.ScanIsCorrectExactly` | NewCodeGenerator.cpp:420-660 | on intervals ordered by start with different names, the recorded allocation is correct (overlapping intervals of a class have different registers of its pool) exactly when nothing was evicted |
| `LinearScanEvictions.ScanIsRightExactly` | NewCodeGenerator.cpp:420-660 | a condition on the intervals: the allocation is correct exactly when no interval begins while all registers of its class are held and every unended interval of the class ends no later than itself |
| `LinearScanEvictions.EvictsExactly` | NewCodeGenerator.cpp:561-612 | an eviction happens exactly when some interval does |
| `LinearScan.FittingScanIsCorrect` | NewCodeGenerator.cpp:420-660 | when no point is covered by more intervals of a class than its pool has registers, the allocation is correct and nothing is spilled |
| `LinearScan.FittingScanSpillsNothing` | NewCodeGenerator.cpp:420-660 | the same without asking for different names: free and active registers make up the pool, and the active intervals are exactly those not ended |
| `LinearScan.ExpireBalances` | NewCodeGenerator.cpp:509-545 | expiring intervals gives back exactly their registers |
| `LinearScan.PlaceBalances` | NewCodeGenerator.cpp:557-639 | placing an interval without eviction keeps free and active registers together the pool |
| `LinearScan.EvictionSpoils` | NewCodeGenerator.cpp:561-612 | an eviction always leaves a wrong record behind |
| `LinearScan.ProcessFitting` | NewCodeGenerator.cpp:487-639 | one interval of a fitting scan |
| `LinearScan.RecordedNames` | NewCodeGenerator.cpp:420-660 | exactly the scanned names are recorded |
| `LinearScanClasses.PoolsAre` | RegisterManager.cpp:3-9 | the integer pool is X20 to X27 and the floating-point pool D8 to D15 |
| `LinearScanClasses.RegistersAreOfClass` | NewCodeGenerator.cpp:557-639 | whatever a scan records, evicted or not, integers have X registers and floating-point variables D registers |
| `LinearScanClasses.FirstRegisters` | NewCodeGenerator.cpp:458-466 | the first integer gets X27 and the first floating-point variable D8 |
| `LinearScanClasses.LongestIsFirst` | NewCodeGenerator.cpp:561-575 | the interval chosen when no register is free is the first of those that end last |
| `LinearScanClasses.RelevantExactly` | NewCodeGenerator.cpp:487-508 | exactly the intervals that are not passed over take part |
| `LinearScanAllocator.Allocator.constructor` | NewCodeGenerator.cpp:458-471 | full pools |
| `LinearScanAllocator.Allocator.ExpireIntervals` | NewCodeGenerator.cpp:509-545 | the loop splits the active list and refills the free one |
| `LinearScanAllocator.Allocator.FindLongest` | NewCodeGenerator.cpp:561-575 | the first active interval that ends last |
| `LinearScanAllocator.Allocator.Choose` | NewCodeGenerator.cpp:557-639 | free register, own spill, or eviction |
| `LinearScanAllocator.Allocator.AllocateOne` | NewCodeGenerator.cpp:487-639 | one interval, both classes expired first |
| `LinearScanAllocator.Allocator.PerformLinearScan` | NewCodeGenerator.cpp:420-660 | the whole scan is that of the specification |
| `GeneratedOperators.TablesAgreeExactly` | NewCodeGenerator.cpp:187-410 | for each operator, exactly the operands on which the folder has the result of the generated instructions; for logical AND and OR none, since they have no code that can be linked |
| `GeneratedOperators.RunsExactly` | NewCodeGenerator.cpp:351-410 | an expression has code that can be linked exactly when it holds no logical AND and no logical OR |
| `GeneratedOperators.OrIsOnlyFolded` | encoders/create_movk_imm.cpp:31-34 | 1 OR 0 is folded to -1 and has no code otherwise |
| `GeneratedOperators.FoldingAgreesExactly` | ConstantFoldingPass.cpp:189-288 | folding two numbers keeps what the generated code computes exactly for these operands |
| `GeneratedOperators.FoldingUnaryAgreesExactly` | ConstantFoldingPass.cpp:327-356 | negation always, logical NOT exactly for operands other than zero |
| `GeneratedOperators.FoldExprKeepsGenerated` | ConstantFoldingPass.cpp:189-376 | a folded expression is worth what the generated code makes of the original, if that has any, when no operator is folded on operands for which the tables differ and none on the literal TRUE |
| `GeneratedOperators.SimplifyKeepsGenerated` | ConstantFoldingPass.cpp:235-280 | the algebraic identities hold for the generated code |
| `GeneratedOperators.ShiftIsFoldedOtherwise` | NewCodeGenerator.cpp:294-296 | -8 >> 1 is folded to -4 and computed as a large positive number |
| `GeneratedOperators.ComparisonIsFoldedOtherwise` | NewCodeGenerator.cpp:240-248 | 1 < 2 is folded to -1 and computed as 1 |
| `GeneratedOperators.TruthIsFoldedOtherwise` | generators/gen_BooleanLiteral.cpp:7-17 | TRUE + 1 is folded to 0 and computed as 2 |
| `OperatorResults.ResultExactly` | ConstantFoldingPass.cpp:189-233 | the value of an operation is the one word that is what its operator is for: sums, differences and products modulo 2^64, quotient and remainder by a = q * b + r with r smaller than b and zero or of the sign of a, conditions -1 or 0, AND -1 exactly for two operands other than zero, OR 0 exactly for two zeros, bitwise operators bit by bit, shifts as doublings and halvings |
| `OperatorResults.UnaryExactly` | ConstantFoldingPass.cpp:327-356 | the same for negation, logical NOT and the complement |
| `OperatorResults.FoldingNumbers` | ConstantFoldingPass.cpp:189-288 | folding two numbers gives a number that is what the operator is for; bitwise AND and a division by zero are left as they are |
| `OperatorResults.FoldingUnaryNumber` | ConstantFoldingPass.cpp:327-356 | the same for one number; the complement is left as it is |
| `OperatorResults.ClosedFolds` | ConstantFoldingPass.cpp:189-376 | an expression of known variables, foldable operators and no zero divisor is folded to its value |
| `OperatorResults.NeutralOperandsGo` | ConstantFoldingPass.cpp:235-280 | neutral and absorbing operands disappear |
| `OperatorResults.NumbersArePropagated` | ConstantFoldingPass.cpp:434-464 | a variable assigned a number is that number in the next assignment, whatever a manifest of its name says |
| `OperatorResults.GeneratedConditions` | NewCodeGenerator.cpp:187-410 | what the generated comparisons and logical NOT leave in the register |
| `OperatorResults.ShiftRightBits` | NewCodeGenerator.cpp:294-296 | the generated right shift moves the bits down and brings in zeros |
| `FoldingReach.FoldedExprIsReduced` | ConstantFoldingPass.cpp:189-376 | a folded expression holds no operation on constants that could be folded, no neutral operand, no decided conditional and no manifest |
| `FoldingReach.FoldedIsReduced` | ConstantFoldingPass.cpp:97-464 | nor does any expression of a folded statement, and no IF in it has a constant condition, whatever is known where folding begins |
| `ConstantFolding.FoldExprKeepsValue` | ConstantFoldingPass.cpp:189-376 | by the folder's own table of operators, a folded expression has the value of the original in every store that agrees with the known and the manifest constants |
| `ConstantFolding.FoldingIsCorrect` | ConstantFoldingPass.cpp:97-464 | by that table, folding a body from an empty map gives the same outcome for every store and fuel, when known variables are left alone wherever control may branch or several variables are assigned |
| `ConstantFolding.FoldKeepsMeaning` | ConstantFoldingPass.cpp:97-464 | the same from any map that agrees with the store, and the map then agrees with the store again |
| `ConstantFolding.SimplifyKeepsValue` | ConstantFoldingPass.cpp:189-288 | the algebraic identities |
| `ConstantFolding.SimplifyForm` | ConstantFoldingPass.cpp:235-280 | what simplification can give: the operation itself, an operand next to a neutral one, or zero |
| `ConstantFolding.IterateKept` | ConstantFoldingPass.cpp:466-473 | loops whose body leaves the known constants alone |
| `ConstantFolding.UntakenBranchIsBelieved` | ConstantFoldingPass.cpp:97-119 | an assignment under an IF that is not taken is propagated all the same |
| `ConstantFolding.DoubleAssignmentIsMissed` | ConstantFoldingPass.cpp:434-464 | a multiple assignment leaves an old constant behind |
| `ConstantFolding.ExecLeaves` | ConstantFoldingPass.cpp:434-464 | a statement changes no variable but those assigned in it |
| `FoldingPass.ConstantFoldingPass.constructor` | ConstantFoldingPass.cpp:79-80 | nothing known |
| `FoldingPass.ConstantFoldingPass.VisitExpr` | ConstantFoldingPass.cpp:189-376 | the expression put in place is that of the specification |
| `FoldingPass.ConstantFoldingPass.VisitAssignment` | ConstantFoldingPass.cpp:434-464 | statement and map after an assignment |
| `FoldingPass.ConstantFoldingPass.VisitIf` | ConstantFoldingPass.cpp:97-119 | statement and map after an IF, decided or not |
| `FoldingPass.ConstantFoldingPass.VisitSwitch` | Optimizer.cpp:243-284 | statement and map after a SWITCHON |
| `FoldingPass.ConstantFoldingPass.VisitStmts` | Optimizer.cpp:322-354 | statements in order, the map handed on |
| `FoldingPass.ConstantFoldingPass.VisitStmt` | Optimizer.cpp:28-36 | any statement |
| `CallFrame.FrameIsPacked` | cf_generate_prologue.cpp:33-61 | frame pointer, link register, canaries, locals, saved registers and spill slots that fit lie apart, on multiples of eight, inside a frame whose size is a multiple of sixteen |
| `CallFrame.LocalsHaveSlots` | cf_generate_prologue.cpp:46-50 | every local is found at its slot |
| `CallFrame.SavedHaveSlots` | cf_generate_prologue.cpp:52-57 | every saved register is found at its slot |
| `CallFrame.SpillsComeLast` | cf_generate_prologue.cpp:59-61 | spilling starts behind the last slot |
| `CallFrame.AlignIsEnough` | cf_align_to_16.cpp:3-5 | the smallest multiple of sixteen that is large enough |
| `CallFrame.PrologueEnters` | cf_generate_prologue.cpp:64-95 | after the prologue the frame holds the caller's frame pointer, link register, saved registers and the canaries |
| `CallFrame.EpilogueLeaves` | cf_generate_epilogue.cpp:13-62 | the epilogue traps exactly when a canary has changed; otherwise it reloads what the frame holds |
| `CallFrame.CallRestores` | cf_generate_epilogue.cpp:13-62 | prologue, a body that leaves the frame's own words alone, epilogue: frame pointer, link register and saved registers are as before, and the stack pointer is sixteen above the base of the frame |
| `CallFrame.StackIsRestoredExactly` | cf_generate_epilogue.cpp:52-62 | the caller's stack pointer comes back exactly when the frame holds nothing but frame pointer and link register |
| `CallFrame.SavedWord` | cf_generate_prologue.cpp:86-93 | each saved register's value lies in its own word |
| `CallFrame.RestoredRegister` | cf_generate_epilogue.cpp:13-20 | each saved register gets the word it was saved in |
| `FrameManager.CallFrameManager.constructor` | CallFrameManager.cpp:37-52 | nothing collected and no spill slot given out |
| `FrameManager.CallFrameManager.AddLocal` | CallFrameManager.cpp:77-92 | a local is added once |
| `FrameManager.CallFrameManager.ForceSaveRegister` | CallFrameManager.cpp:129-140 | a register is saved once; an error after the prologue |
| `FrameManager.CallFrameManager.ReserveRegistersBasedOnPressure` | CallFrameManager.cpp:145-168 | the registers saved afterwards are exactly those before and the first ones of the pool, as many as the pressure asks for and the pool has |
| `FrameManager.ReservedExactly` | CallFrameManager.cpp:145-168 | which are just those asked for, none twice, none lost |
| `FrameManager.CallFrameManager.PreallocateSpillSlots` | CallFrameManager.cpp:119-127 | eight bytes for each slot, before the prologue only |
| `FrameManager.CallFrameManager.GeneratePrologue` | cf_generate_prologue.cpp:9-103 | the registers saved are exactly those forced or reserved before and, when global pointers are used, X19 and X28, none twice and in the order of names; locals, canaries and spill area are those collected; the code is the prologue of that frame, and an error is reported when there is a prologue or the frame is larger than 512 bytes |
| `FrameManager.CallFrameManager.CallKeepsGlobals` | cf_generate_prologue.cpp:17-27 | in a function that uses global pointers, X19 and X28 and every register saved besides have the caller's values after prologue, body and epilogue |
| `FrameManager.CallFrameManager.SetUsesGlobalPointers` | CallFrameManager.h:55 | sets the flag |
| `FrameManager.CallFrameManager.GenerateEpilogue` | cf_generate_epilogue.cpp:6-76 | the epilogue of the frame laid out; an error without a prologue |
| `FrameManager.CallFrameManager.GetSpillOffset` | CallFrameManager.cpp:100-116 | a slot behind all others on first use, the same one later; which slots were given out before the prologue, from the frame pointer on, and which since |
| `FrameManager.CallFrameManager.SlotsStayApart` | CallFrameManager.cpp:100-116 | the slots of the frame and the spill slots given out since the prologue lie apart, inside the frame as long as no more is spilled than was set aside |
| `FrameManager.CallFrameManager.SpillsStayApartExactly` | CallFrameManager.cpp:100-116 | all spill slots ever given out lie apart from each other and from the slots of the frame exactly when none was given out before the prologue |
| `FrameManager.EarlySlotCollides` | CallFrameManager.cpp:100-116 | a slot given out before it first lies on the saved frame pointer |
| `FrameManager.SortIsSorted` | cf_generate_prologue.cpp:29-31 | the saved registers are in the order of their names |
| `FrameManager.SortKeepsAll` | cf_generate_prologue.cpp:29-31 | and none is lost or added |
| `Utf8.SafeEncodeUtf8Char` | SignalSafeUtils.cpp:53-74 | writes the bytes of the character and nothing else, and answers how many |
| `Utf8.EncodedLength` | SignalSafeUtils.cpp:53-74 | one to four bytes in the standard ranges, none exactly from 0x110000 on; the first byte tells the number |
| `Utf8.Utf8ToUtf32` | DataGenerator.cpp:59-86 | the loop decodes as specified, with the error for a byte that starts no character |
| `Utf8.DecodingUndoesEncoding` | DataGenerator.cpp:59-86 | decoding the encoded characters of any text gives the text and uses every byte |
| `Utf8.EncodingIsInjective` | SignalSafeUtils.cpp:53-74 | different texts have different bytes |
| `Utf8.EncodingUndoesDecoding` | DataGenerator.cpp:59-86 | a byte text survives decoding and encoding exactly when it is in proper form: continuation bytes in place, shortest form, no character too large |
| `Utf8.ProperExactly` | DataGenerator.cpp:59-86 | the same for one character |
| `Utf8.OverlongIsAccepted` | DataGenerator.cpp:59-86 | the decoder lets a longer form than needed pass |
| `Utf8.CutOffIsAccepted` | DataGenerator.cpp:59-86 | and reads the terminator as the last byte of a cut-off character |

## Left out

Graph building and code generation:
- GOTO and labels (the ids of label blocks can coincide), FOREACH, FINISH, RESULTIS, VALOF inside expressions, routine
  calls, strings, floats and vectors; WHILE, UNTIL, REPEAT, TEST and UNLESS, whose visitors are empty in the builder.
- Null children of syntax tree nodes, and the printing of graphs.
- A jump without a target ends a run as falling off its block; what the machine does behind the block is not modelled.
- Code generated for statements and expressions: a block's statements act on the store directly.

Liveness and common subexpressions:
- Uses and definitions through vectors, strings, calls and pointers.
- LocalCse.EliminationIsCorrect: asks that source names do not begin with the prefix of temporaries, that the block has no
  LET yet, and that temporaries are used for what they hold. The last is sufficient, not necessary: a wrong temporary may
  happen to hold the right value.
- Keys of strings, floats and calls, and the type guessed for a temporary.

Peephole:
- The set of patterns under optimizer/patterns that the constructor registers (PeepholeOptimizer.cpp:32-51); chains of moves, copy propagation,
  division by powers of two, comparison and branch chaining, which need facts the code does not track.
- PeepholeWindows.WindowIsSoundExactly: registers 0 to 30 only; memory is 32-bit cells by exact address; what a call does
  is an unknown but fixed transformation. Matchers that would read past the end count as not matching.
- PeepholeOptimizer.Optimizer.ApplyOptimizationPass: asks that no neighbours are stuck, since the original otherwise does
  not end; Run asks that the code settles, for the same reason.

Expressions:
- VEC, FVEC, STRING and VALOF operands, and the infix percent sign, which the lexer turns into a token without
  precedence. Where the cursor stands after an error is not modelled.

Registers, linear scan:
- Floating-point and vector pools of the register manager; acquiring from a manager in which every variable register is
  taken as scratch, which reads from an empty list in the original.
- RegisterSession.SessionsStaySane: asks that no variable is dropped whose value is nowhere else, and that no variable has
  the name used for temporaries.
- LinearScan.ScanIsCorrectExactly: intervals come ordered by start, in any order among equal starts, instead of being
  sorted; the update of spill offsets afterwards is left out.

Constant folding:
- Shifts by amounts outside 0 to 63 and the smallest integer divided by -1, which are undefined in the original. TEST,
  WHILE and REPEAT, floats. Generated operators are modelled by their result; which registers they use is not.
- ConstantFolding.FoldingIsCorrect: its condition on the body is sufficient, not necessary, because whether a stale
  constant matters depends on which paths run.

List literals:
- String and float elements, alignment padding between literals, and addresses of 2^64 or more.
- ListImages.StreamLinks: of the second linker pass only the read-only words are modelled; code words have a size and no
  content, so failing relocations of code and data are not part of the model.

Call frame and UTF-8:
- FrameManager.CallFrameManager.AddLocal: locals added behind the prologue are not modelled.
- CallFrame.PrologueEnters: building the constant in a scratch register is one step.
- String literals in the data image; Utf8.Utf8ToUtf32 reports reading behind the terminator, where the original has no
  defined behaviour.

Strength reduction, the symbol table, the lexer, cloning of trees, the preprocessor, run-time services, memory for
generated code and all printing are not part of this model.
