# Lirien's compiler middle, in Dafny

Lirien compiles Python functions to an SSA control-flow graph, optimises that graph, turns it into SMT constraints to
look for run-time errors, and lowers it to machine code. This project models the part between the Python front end and
the machine code on one intermediate representation and proves that each step is right on every run.

`dafny verify dfyconfig.toml` checks the whole project.

## How it is organised

| file | content |
|---|---|
| `Types.dfy`, `Bits.dfy` | the type table; fixed-width integer arithmetic, total as in SMT bit-vectors |
| `Ir.dfy` | instructions, blocks, the function object; a step semantics over (block, predecessor, environment, trace) |
| `Ssa.dfy` | dominance, well-formedness, and the fact every pass rests on: defining equations hold wherever they dominate |
| `SsaState.dfy`, `SsaSteps.dfy`, `SsaBuilder.dfy` | the on-the-fly SSA builder as a class, its invariant, and each step's proof |
| `SsaMeaning.dfy`, `SsaOutput.dfy`, `SsaRuns.dfy` | what the builder's reads return on every path; its output is well-formed SSA; its runs |
| `SsaClient.dfy` | two front ends that work through the builder's operations: a loop, and code after a return |
| `Encoding.dfy`, `Translation.dfy` | the solver's formulas and the translator that asserts them |
| `Arithmetic.dfy` | what comparisons, sums, products and divisions of words say of the integers they stand for |
| `IntegerRuns.dfy`, `Models.dfy` | loop-free integer runs; the models of the constraints are the runs that branch on 1 |
| `Exactness.dfy`, `QueryExamples.dfy` | models and division queries against compiled runs, which branch on non-zero; two programs |
| `Reach.dfy`, `LoopEquality.dfy` | breadth-first reachability; the detector of equal loop phis |
| `Rewrite.dfy`, `ConstFold.dfy`, `Fusion.dfy`, `Dce.dfy`, `Pipeline.dfy` | the passes and their composition |
| `FoldComplete.dfy` | which instructions folding replaces, and no others |
| `FoldExamples.dfy` | folding on two whole functions: exactly when it is right, and where it is not |
| `Liveness.dfy`, `Rpo.dfy` | liveness dataflow; the lowering order |
| `Layout.dfy`, `LayoutBounds.dfy` | memory layouts; the room they have for each part, and no more |
| `Broadcast.dfy`, `GrowList.dfy` | the broadcast kernel, the growable list |

Instructions are one constructor per shape. `Pure`, `Load` and `Effect` stand for the remaining side-effect-free,
memory-reading and side-effecting instructions; an `Interp` gives them meaning, and says on which values a branch takes
its true edge. A theorem holds for all of them unless it asks for one of the two readings that occur: the compiled code
branches on non-zero, the constraints test for 1. Float arithmetic is uninterpreted, tensors are immutable values. A
value read before it is set is `Undef`. Phis are evaluated together on the incoming edge. Division by zero gives what
SMT bit-vectors give.

Code that changes state step by step is imperative here too: the builder, the translator and the list are classes, the
passes are methods on the function object, and each is proved against a specification about which the theorems are then
proved.

## The main results

- **SSA construction.** On every path of a finished graph, each value that a variable read returned holds what the
  source variable holds there; reads terminate; an unbound variable is reported exactly where some backward walk through
  sealed blocks without an assignment ends in a block without predecessors. The definition a read returns dominates the
  read. So, for every front end that uses only what it has (parameters, earlier results and reads of the block, and
  definitions of dominating blocks) and ends blocks with their terminator, the finished graph is well-formed SSA:
  `BuiltWellFormed` has no other hypothesis. `BuildCountdown` is such a front end, with a loop. For a front end that
  uses only what it has, the graph is well-formed if and only if every terminator comes last in its block and jumps
  where that block is linked to (`WellFormedExactly`); the statement visitor breaks this on code after a return
  (`BuildReturnTwice`).
- **Exact constraints.** On loop-free integer code, every model of the emitted constraints is one run that takes true
  edges on 1, and every such run is a model. Compiled code takes them on non-zero: a model has the blocks and edges of
  the compiled run from its inputs if and only if every condition that run meets is 0 or 1 (`CourseExact`). This holds
  on every input when each condition is a boolean, a comparison, 0, 1, or a copy or phi of such values, at any width,
  and then a division query is satisfiable if and only if some input's compiled run divides by zero there; the queries
  are those of every signed division and remainder and no others. What an operation on words computes is said of the
  integers they stand for (`Arithmetic`). With other conditions a division by zero can go unnoticed:
  `WideConditionHidesDivision` proves it of `if n: return 2 // (n - 2)`, whose front end branches on the integer itself.
- **Equal loop phis.** Two phis that the detector accepts are equal at every visit to their header in every run, and
  it accepts exactly those whose instructions start and advance alike.
- **Passes.** Folding, fusion, dead-code elimination and their composition keep every run's blocks, trace and result,
  and the output is well-formed SSA again. Each does all of its work and no more: folding replaces exactly the constant
  expressions, fusion leaves no kernel to merge, and elimination keeps exactly what effects and control need. For
  folding, what is computed from constants alone must not be wider than its operands. On `return x op y` this is exactly
  when folding is right for all constants (`FoldingExact`). The front end builds a graph where it is not met: a
  comparison with a boolean retypes the constant it compares, and folding a sum of that constant changes the returned
  value (`RetypedFoldsWrong`).
- **Liveness** is the least solution of its equations on the instructions, equals its path definition in both
  directions, and is enough to fix every continuation's trace.
- **Lowering order.** Dominators come first, so definitions come before uses; an edge goes forward in the order unless
  it closes a cycle.
- **Layouts, broadcast, list.** Leaves of a layout are aligned, inside and disjoint, and every part of a type, tags and
  payloads included, has its room with the least padding; the broadcast kernel computes its specification for all ranks;
  the list is a sequence and moves fewer than two elements per append.

## Model

| member | source | states |
|---|---|---|
| `Ir.Function.NextValue` | crates/lirien-ir/src/ir/function.rs:107-111 | returns the next unused value id and nothing else changes |
| `Ir.Function.NextBlock` | crates/lirien-ir/src/ir/function.rs:124-128 | returns the next unused block id and nothing else changes |
| `SsaBuilder.CFGBuilder.constructor` | crates/lirien-ir/src/builder/mod.rs:87-319 | a new builder satisfies the invariant with one sealed entry block |
| `SsaBuilder.CFGBuilder.CreateBlock` | crates/lirien-ir/src/builder/mod.rs:491-500 | adds an empty, unsealed block; the invariant is kept |
| `SsaBuilder.CFGBuilder.LinkBlocks` | crates/lirien-ir/src/builder/mod.rs:506-517 | records the edge on both sides; predecessors are linked before sealing; no block ever lists a predecessor or a successor twice |
| `SsaBuilder.CFGBuilder.AddInstructionToBlock` | crates/lirien-ir/src/builder/mod.rs:457-474 | a phi goes to the head of its block, every other instruction to the end |
| `SsaBuilder.CFGBuilder.AddInstruction` | crates/lirien-ir/src/builder/mod.rs:452-455 | what the front end emits is the next item of the block's log and its next instruction |
| `SsaBuilder.CFGBuilder.WriteVariable` | crates/lirien-ir/src/builder/mod.rs:337-342 | the definition of the variable at this block is replaced, all others stay |
| `SsaBuilder.CFGBuilder.Assign` | crates/lirien-ir/src/builder/visitor/assignments.rs:19 | an assignment keeps the invariant and is logged where it happened |
| `SsaBuilder.CFGBuilder.Use` | crates/lirien-ir/src/builder/visitor/expressions/literals.rs:69 | a read returns the variable's current definition, or reports it unbound: that exactly if some backward walk through sealed blocks without a definition ends in a block without predecessors |
| `SsaBuilder.CFGBuilder.ReadVariable` | crates/lirien-ir/src/builder/mod.rs:344-351 | terminates; keeps the invariant with half-built phis in flight; returns the definition at the end of the block so far; reports the variable unbound exactly on such a walk |
| `SsaBuilder.CFGBuilder.ReadVariableRecursive` | crates/lirien-ir/src/builder/mod.rs:353-396 | the unsealed, single-predecessor and join cases, each recording its result before or after the recursion as the code does, and the unbound case exactly on such a walk; measure: blocks still open for the variable, then depth from the entry |
| `SsaBuilder.CFGBuilder.AddPhiOperands` | crates/lirien-ir/src/builder/mod.rs:398-432 | the phi gets one operand per predecessor: the variable's definition at that predecessor's end |
| `SsaBuilder.CFGBuilder.SealBlock` | crates/lirien-ir/src/builder/mod.rs:434-441 | every incomplete phi of the block is completed and the block is sealed; if that succeeds, no waiting variable is unassigned on a walk back from a predecessor, and the one reported otherwise is |
| `SsaBuilder.NowDefined` | crates/lirien-ir/src/builder/mod.rs:376-396 | a sealed block that had no definition of a variable before a read and has one after it has predecessors, and all of them have one |
| `SsaMeaning.CompleteStructure` | crates/lirien-ir/src/builder/mod.rs:360-441 | once every block is sealed no phi is incomplete, a variable has at most one phi per block, phis come first, and operand keys are the predecessors with the variable's value at each one's end |
| `SsaMeaning.ReadsAreRight` | crates/lirien-ir/src/builder/mod.rs:337-441 | on every path, every value returned by a variable read equals what the source variable holds at that point, and the variable has been assigned |
| `SsaMeaning.PathGood` | crates/lirien-ir/src/builder/mod.rs:344-396 | the invariant behind it, kept along every path: at each entry, each variable's definition holds its contents |
| `SsaOutput.BuiltWellFormed` | crates/lirien-ir/src/builder/mod.rs:337-474 | if the front end uses only what is available where it emits and assigns, the finished graph is well-formed SSA: unique definitions that dominate their uses, in order within a block, phis first and keyed by predecessors |
| `SsaOutput.WellFormedExactly` | crates/lirien-ir/src/builder/mod.rs:337-517 | where everything emitted and assigned is available, the finished graph is well-formed SSA iff every terminator comes last in its block and its targets are linked from that block |
| `SsaOutput.ReadDominates` | crates/lirien-ir/src/builder/mod.rs:344-396 | the definition a read returns dominates the point of the read; in the reading block it comes before it |
| `SsaRuns.RunFollowed` | crates/lirien-ir/src/builder/mod.rs:337-474 | every run of the built function is one of the paths on which reads are right |
| `SsaClient.BuildCountdown` | crates/lirien-ir/src/builder/visitor/statements/loops.rs:22-121 | create, link, assign, use and seal for `x = 10; while x: x = x - 1; return x`, in the visitor's order, end in a complete builder whose graph is well-formed SSA |
| `SsaClient.BuildReturnTwice` | crates/lirien-ir/src/builder/visitor/statements/mod.rs:84-97 | `x = 1; return x; return x` ends in a complete builder whose graph is not well-formed |
| `Translation.TranslationContext.DeclareConditions` | crates/lirien-verify/src/verifier/cfg.rs:16-76 | one boolean per block and per terminator edge, and no others |
| `Translation.TranslationContext.AssertCfgConstraints` | crates/lirien-verify/src/verifier/cfg.rs:78-105 | the added assertions hold in exactly the models where the entry is true and any other block is true iff one of its incoming edges is |
| `Translation.TranslationContext.TranslateBranch` | crates/lirien-verify/src/verifier/control_flow.rs:20-45 | true edge iff block and condition = 1, false edge iff block and condition ≠ 1, at any width of the condition |
| `Translation.TranslationContext.TranslateJump` | crates/lirien-verify/src/verifier/control_flow.rs:46-54 | the edge is true iff the block is |
| `Translation.TranslationContext.IsLoopHeader` | crates/lirien-verify/src/verifier/control_flow.rs:106-111 | true iff some incoming block can be reached from the phi's block |
| `Translation.TranslationContext.TranslatePhi` | crates/lirien-verify/src/verifier/control_flow.rs:277-329 | on loop-free code no header is found and no operand is skipped; each taken edge equates the phi with its operand |
| `Translation.TranslationContext.TranslateOp` | crates/lirien-verify/src/verifier/arithmetic.rs:18-406 | the assertion holds iff a true block's operation has the result the semantics gives; an `SDiv` or `SRem` also queues the query of its block and of its divisor being zero at the divisor's width, and nothing else does |
| `Translation.TranslationContext.TranslateInstructions` | crates/lirien-verify/src/verifier/mod.rs:303-345 | all instructions of all blocks, and the checks in program order |
| `Translation.ChecksMembers` | crates/lirien-verify/src/verifier/arithmetic.rs:362-388 | the queue holds that query for every `SDiv` and every `SRem` of every block, and nothing else |
| `Encoding.OpFormulaMeaning` | crates/lirien-verify/src/verifier/arithmetic.rs:74-130 | the bit-vector formula of each operation holds iff the result is what the instruction computes; what that is in integers is `Arithmetic` |
| `Encoding.CmpFormulaMeaning` | crates/lirien-verify/src/verifier/arithmetic.rs:478-526 | the two implications say that the destination is 1 or 0 as the comparison holds or not |
| `Encoding.ResizedMeaning` | crates/lirien-verify/src/verifier/arithmetic.rs:40-61 | assignment widens by the source's sign, copies, or truncates |
| `Arithmetic.IntegerTypes` | crates/lirien-ir/src/ir/types.rs:146-165 | the widths of the integer types, and which of them are signed |
| `Arithmetic.WrappedType` | crates/lirien-ir/src/ir/types.rs:153-162 | a refined or literal type has the width and the sign of the type it is built on |
| `Arithmetic.WidthOfType` | crates/lirien-verify/src/verifier/arithmetic.rs:374 | a value without a bit width is taken for 64 bits |
| `Arithmetic.WordSizes` | crates/lirien-ir/src/ir/types.rs:146-156 | how many patterns a word of each of these widths has |
| `Arithmetic.SignedReading` | crates/lirien-verify/src/verifier/arithmetic.rs:499-502 | a pattern's signed reading lies in -2^(w-1) to 2^(w-1) - 1 and has that pattern; with `SignedPattern`, it is the only such integer |
| `Arithmetic.SignedPattern` | crates/lirien-verify/src/verifier/arithmetic.rs:499-502 | every integer of that range is the reading of its pattern |
| `Arithmetic.ComparisonResult` | crates/lirien-verify/src/verifier/arithmetic.rs:478-526 | the signed comparisons of words give 1 where the integers compare so and 0 where they do not |
| `Arithmetic.UnsignedComparisonResult` | crates/lirien-verify/src/verifier/arithmetic.rs:478-526 | the same of the unsigned comparisons |
| `Arithmetic.ComparisonOrder` | crates/lirien-verify/src/verifier/arithmetic.rs:478-526 | on all patterns, less-than is a strict total order, less-or-equal is it or equality, and greater is the converse, signed and unsigned |
| `Arithmetic.AllOnes` | crates/lirien-verify/src/verifier/arithmetic.rs:499-503 | the pattern 2^w - 1 is below 0 when signed and above every other when unsigned |
| `Arithmetic.SumResult` | crates/lirien-verify/src/verifier/arithmetic.rs:74-115 | sum, difference and product of words are those of their integers modulo 2^w |
| `Arithmetic.ExactWhenItFits` | crates/lirien-verify/src/verifier/arithmetic.rs:74-115 | and exact where the result is in the signed range |
| `Arithmetic.NegationNegates` | crates/lirien-verify/src/verifier/arithmetic.rs:119-130 | negation negates the integer modulo 2^w |
| `Arithmetic.SignedDivision` | crates/lirien-verify/src/verifier/arithmetic.rs:392-404 | x = y q + r with r below y in absolute value and zero or of x's sign, q and r the signed readings of `SDiv` and `SRem`; for y = 0 they are -1 or 1 against x's sign, and x; for the one overflow x and 0 |
| `Arithmetic.QuotientResult` | crates/lirien-verify/src/verifier/arithmetic.rs:392-404 | what the two instructions leave is that quotient and remainder of the left operand by the right one |
| `Arithmetic.UnsignedDivision` | crates/lirien-verify/src/verifier/arithmetic.rs:459-476 | x = y q + r with r < y; for y = 0 the quotient is 2^w - 1 and the remainder x |
| `Arithmetic.UnsignedQuotientResult` | crates/lirien-verify/src/verifier/arithmetic.rs:459-476 | what `UDiv` and `URem` leave is that quotient and remainder |
| `Arithmetic.AssignmentKeepsInteger` | crates/lirien-verify/src/verifier/arithmetic.rs:40-61 | a wider destination gets the integer the source's type reads, an equal or narrower one what is left of it modulo the word |
| `IntegerRuns.NoRevisit` | crates/lirien-verify/src/verifier/control_flow.rs:572-632 | code without a cycle of control edges runs each block at most once |
| `IntegerRuns.RunBetween` | crates/lirien-verify/src/verifier/arithmetic.rs:74-130 | along every run each value whose definition dominates is set, within its width, and set only once |
| `Models.ModelIsRun` | crates/lirien-verify/src/verifier/cfg.rs:16-105 | in any model, the true blocks and edges are exactly those of the run from the model's inputs that takes true edges on 1 |
| `Models.RunIsModel` | crates/lirien-verify/src/verifier/cfg.rs:16-105 | such a run from any inputs gives a model with those inputs, if it enters no block whose branch has equal targets |
| `Models.ModelExists` | crates/lirien-verify/src/verifier/control_flow.rs:20-45 | inputs have a model iff their run enters no block whose branch has equal targets |
| `Exactness.CourseExact` | crates/lirien-verify/src/verifier/control_flow.rs:20-45 | a model has the blocks and edges of the compiled run from its inputs iff every condition that run meets is 0 or 1 |
| `Exactness.InputsExact` | crates/lirien-verify/src/verifier/control_flow.rs:20-45 | every input has a model, and any model of it takes the compiled run's course iff that run meets only 0 and 1 as conditions |
| `Exactness.BooleanConditionsSuffice` | crates/lirien-verify/src/verifier/arithmetic.rs:478-526 | if every branch tests a boolean, a comparison, 0, 1, or a copy or phi of such values, every run meets only 0 and 1 as conditions |
| `Exactness.VerifierCheckExact` | crates/lirien-verify/src/verifier/arithmetic.rs:362-406 | at any condition width, a division query is satisfiable iff some run that takes true edges on 1 reaches that division with a zero divisor |
| `Exactness.DivisionFound` | crates/lirien-verify/src/verifier/arithmetic.rs:362-406 | a compiled run that meets only 0 and 1 as conditions and divides by zero makes its query satisfiable |
| `Exactness.DivisionCheckExact` | crates/lirien-verify/src/verifier/arithmetic.rs:362-406 | where every condition is such a value, a division query is satisfiable iff some input's compiled run reaches that division with a zero divisor |
| `Exactness.ChecksExact` | crates/lirien-verify/src/verifier/mod.rs:186-200 | some queued check is satisfiable iff some input makes an `SDiv` or `SRem` divide by zero in the compiled run, written on the instruction the run reaches |
| `Exactness.Encode` | crates/lirien-verify/src/verifier/mod.rs:303-345 | the assertions left are the constraints of the function, and the checks are the zero-divisor queries of every `SDiv` and `SRem` and no others; if no branch has equal targets and conditions are boolean, some check is satisfiable iff some input divides by zero |
| `QueryExamples.QuotientDivides` | crates/lirien-verify/src/verifier/arithmetic.rs:362-406 | the query of `return a // b`, and that of `return a % b`, has a model |
| `QueryExamples.WideConditionHidesDivision` | crates/lirien-verify/src/verifier/control_flow.rs:20-45 | for `if n: return 2 // (n - 2)` over 64-bit n the division query has no model, yet the compiled run from n = 2 divides by zero |
| `Reach.IsReachable` | crates/lirien-verify/src/verifier/control_flow.rs:572-632 | the search answers true iff some path of control edges leads to the target |
| `LoopEquality.DetectEquality` | crates/lirien-verify/src/verifier/control_flow.rs:424-570 | true iff both phis have as many incoming edges, one of them a back edge, the same value or constant on every entry, and on every back edge both phis or two `Add` or two `Sub` of each with the same or an equally constant step |
| `LoopEquality.DetectedExactly` | crates/lirien-verify/src/verifier/control_flow.rs:424-570 | the specification of the detector is that condition on the instructions |
| `LoopEquality.CountersDetected` | crates/lirien-verify/src/verifier/control_flow.rs:501-534 | two counters that start at one value and add one step, on either side, are found equal |
| `LoopEquality.DetectedPhisEqual` | crates/lirien-verify/src/verifier/control_flow.rs:424-570 | accepted phis of one width are equal at every visit to the header in every run of well-formed SSA |
| `Rewrite.RewrittenIsEqual` | crates/lirien-ir/src/optimization/mod.rs:33-37 | replacing operations by ones that compute the same from values defined earlier keeps every run |
| `ConstFold.FoldConstants` | crates/lirien-ir/src/optimization/constant_folding.rs:4-116 | rebuilds the blocks in list order with one map of known integer constants |
| `ConstFold.FoldAdd` | crates/lirien-ir/src/optimization/constant_folding.rs:23-36 | a wrapped 64-bit sum, truncated, is the sum at the destination's width |
| `ConstFold.FoldSub` | crates/lirien-ir/src/optimization/constant_folding.rs:37-50 | the same for differences, and so for negation |
| `ConstFold.FoldMul` | crates/lirien-ir/src/optimization/constant_folding.rs:51-64 | the same for products |
| `ConstFold.KnownIsArith` | crates/lirien-ir/src/optimization/constant_folding.rs:7-108 | a constant computed by the folder is the value the operation has on those operands |
| `FoldComplete.SsaFoldedExactly` | crates/lirien-ir/src/optimization/constant_folding.rs:4-116 | going through the block list, an instruction becomes a constant iff it is a sum, difference, product or negation of values that are constants before it after folding; its value is the wrapped 64-bit result; nothing else changes |
| `ConstFold.FoldingPreservesRuns` | crates/lirien-ir/src/optimization/constant_folding.rs:4-116 | folding keeps every run of a well-formed function, although the map follows list order, if each foldable operation whose operands come from constants alone has operands at least as wide as its result; nothing is asked of other instructions |
| `ConstFold.FoldsRightExactly` | crates/lirien-ir/src/optimization/constant_folding.rs:23-64 | folding a sum, difference or product in 64-bit arithmetic is right for all constants iff neither operand is narrower than the result |
| `FoldExamples.FoldingExact` | crates/lirien-ir/src/optimization/constant_folding.rs:23-64 | folding keeps the runs of `return x op y` for all constants x and y iff neither operand is narrower than the result |
| `FoldExamples.RetypedFoldsWrong` | crates/lirien-ir/src/builder/visitor/expressions/binary.rs:152-157 | the comparison retypes the constant x in `x = 2; y = x + 1; if flag == x: return y`; the graph is well-formed, and from flag = 0 it returns 1 before folding and 3 after |
| `Fusion.CountUses` | crates/lirien-ir/src/optimization/fusion.rs:9-16 | counts the operand positions of each value, phis excepted |
| `Fusion.GetFusedExpr` | crates/lirien-ir/src/optimization/fusion.rs:197-281 | the tree of a value: absorbed operations unfolded, everything else a leaf; inputs in first-occurrence order; terminates because definitions lie earlier |
| `Fusion.PushAllMembers` | crates/lirien-ir/src/optimization/fusion.rs:197-281 | the input list holds exactly the leaves, each once |
| `Fusion.FuseTensorKernels` | crates/lirien-ir/src/optimization/fusion.rs:5-167 | each candidate becomes the kernel of its expanded tree; nothing else changes |
| `Fusion.KernelIsTree` | crates/lirien-ir/src/optimization/fusion.rs:22-166 | the kernel, element by element, computes what the operator tree computes on whole tensors |
| `Fusion.FusionPreservesRuns` | crates/lirien-ir/src/optimization/fusion.rs:5-167 | fusion keeps every run |
| `Fusion.AbsorbedUnread` | crates/lirien-ir/src/optimization/fusion.rs:169-195 | after fusion no instruction but a phi reads an absorbed temporary |
| `Fusion.NothingLeftToFuse` | crates/lirien-ir/src/optimization/fusion.rs:32-35 | after fusion no tensor operation and no kernel reads, on either side, a value counted once and defined in its block by a tensor operation |
| `Fusion.SoleReadFused` | crates/lirien-ir/src/optimization/fusion.rs:32-35 | a value that a tensor operation defines and only one other of its block reads, on one side, is read by no instruction but a phi afterwards |
| `Fusion.ProductOfSumFused` | crates/lirien-ir/src/optimization/fusion.rs:65-81 | an instance: `a * (b + c)` becomes one kernel of the inputs a, b, c |
| `Fusion.AbsorbedSurvivesOnlyByPhi` | crates/lirien-ir/src/optimization/fusion.rs:169-195 | an absorbed temporary is still required afterwards only if a required phi reads it |
| `Dce.GetOperands` | crates/lirien-ir/src/optimization/dce.rs:63-73 | the uses, and for a phi its incoming values |
| `Dce.FindDef` | crates/lirien-ir/src/optimization/dce.rs:50-61 | the first instruction in list order that defines the value |
| `Dce.Propagate` | crates/lirien-ir/src/optimization/dce.rs:20-33 | the worklist, duplicates included, terminates with exactly the required values |
| `Dce.RequiredIsLeast` | crates/lirien-ir/src/optimization/dce.rs:9-33 | that set is the least one that holds the side effects' operands and is closed under operands of definitions |
| `Dce.EliminateDeadCode` | crates/lirien-ir/src/optimization/dce.rs:4-48 | keeps an instruction iff it has side effects or defines a required value |
| `Dce.PrunedExactly` | crates/lirien-ir/src/optimization/dce.rs:36-46 | each block keeps its effects and its control, and of its other instructions exactly those whose result is in every set that holds what effects, control and the definitions of its own values read |
| `Dce.DcePreservesRuns` | crates/lirien-ir/src/optimization/dce.rs:4-48 | original and pruned function go through the same blocks with the same trace and result, phis around loops included |
| `Dce.DceIdempotent` | crates/lirien-ir/src/optimization/dce.rs:4-48 | pruning twice is pruning once |
| `Dce.DceKeepsWellFormed` | crates/lirien-ir/src/optimization/dce.rs:4-48 | the pruned function is well-formed SSA again, so the verifier and the lowering may rely on dominance |
| `Pipeline.Optimize` | crates/lirien-ir/src/optimization/mod.rs:30-40 | folding, fusion and pruning, in this order, on one function object; every run is kept |
| `Pipeline.OptimizePreservesRuns` | crates/lirien-ir/src/optimization/mod.rs:30-40 | the composition of these three passes keeps every run's blocks, trace and result, and its output is well-formed |
| `Liveness.AnalyzeLiveness` | crates/lirien-ir/src/analysis/liveness.rs:23-116 | terminates with the least solution of the equations, in which a value is live at a block iff some path reads it, phi operands on their edge, before defining it; per-instruction sets satisfy the equations too |
| `Liveness.SolvesEquations` | crates/lirien-ir/src/analysis/liveness.rs:38-81 | the equations on the instructions: v is live out of p iff a phi of a successor has v under key p, or v is live into a successor none of whose phis defines it; live into b iff read by a non-phi before b defines it, or live out and not defined in b |
| `Liveness.OtherEdgesOperand` | crates/lirien-ir/src/analysis/liveness.rs:57-64 | a value only phis read, none of them under key p, is not live out of p unless it is live through a successor |
| `Liveness.LiveIsLeast` | crates/lirien-ir/src/analysis/liveness.rs:32-90 | it is below every solution of the equations |
| `Liveness.TransferOnlyLive` | crates/lirien-ir/src/analysis/liveness.rs:38-81 | one in-place update from live values gives live values only |
| `Liveness.LiveOutSuffices` | crates/lirien-ir/src/analysis/liveness.rs:38-81 | environments that agree on what is live out of p behave alike in every continuation through every successor |
| `Liveness.InstLiveOutSuffices` | crates/lirien-ir/src/analysis/liveness.rs:92-108 | the same after each instruction, phis included: after a phi, the later phis of its block, set with it on the edge, agree as well |
| `Rpo.Visit` | crates/lirien-backend/src/cranelift/mod.rs:716-732 | the depth-first search appends a block after everything newly reached from it |
| `Rpo.ReversePostOrder` | crates/lirien-backend/src/cranelift/mod.rs:713-734 | every reachable block once and no other, the entry first, every later block after one of its predecessors; along an edge the source comes first unless the target leads back to it |
| `Rpo.DominatorsFirst` | crates/lirien-backend/src/cranelift/mod.rs:713-734 | every block comes after all blocks that dominate it |
| `Rpo.DefinitionsFirst` | crates/lirien-backend/src/cranelift/mod.rs:713-734 | non-phi uses are lowered after their definitions |
| `Layout.ClearLowBits` | crates/lirien-ir/src/ir/types.rs:268 | clearing the low k bits rounds down to a multiple of 2^k |
| `Layout.MaskRoundsUp` | crates/lirien-ir/src/ir/types.rs:268 | the mask expression is the next multiple of the alignment |
| `Layout.ComputeSize` | crates/lirien-ir/src/ir/types.rs:244-332 | the size loops compute the size of the type, for every acyclic table; what that size has room for, and how tightly, is `LayoutBounds` |
| `Layout.ComputeAlign` | crates/lirien-ir/src/ir/types.rs:335-395 | the alignment loops compute the largest alignment of a member, which is the least that suits them all |
| `Layout.AlignmentOk` | crates/lirien-ir/src/ir/types.rs:335-395 | every alignment is 1, 2, 4, 8 or 16 |
| `Layout.AlignDividesSize` | crates/lirien-ir/src/ir/types.rs:244-395 | alignment divides size |
| `LayoutBounds.ScalarFits` | crates/lirien-ir/src/ir/types.rs:246-249 | a scalar has the fewest bytes that hold its bits (8 times its size is its width, from 8 bits on) and is aligned to its size |
| `LayoutBounds.WordFits` | crates/lirien-ir/src/ir/types.rs:249-262 | pointers, lists, strings and function values take one aligned 64-bit word, a buffer two, a vector 128 bits |
| `LayoutBounds.OptionalHolds` | crates/lirien-ir/src/ir/types.rs:288-297 | at some offset of at least 1, aligned for the payload, the payload is inside; less than one alignment is padding before and after it |
| `LayoutBounds.EnumHolds` | crates/lirien-ir/src/ir/types.rs:298-329 | the same offset suits every variant, each is inside, and after the largest less than one alignment is padding |
| `LayoutBounds.FieldsTight` | crates/lirien-ir/src/ir/types.rs:265-270 | each field starts where the one before it ends, after the least padding that aligns it; the first at 0 |
| `LayoutBounds.RecordTight` | crates/lirien-ir/src/ir/types.rs:277-286 | a record ends where its last field does, after the least padding that aligns the record |
| `LayoutBounds.StructIsTuple` | crates/lirien-ir/src/ir/types.rs:263-286 | a named record is laid out as the tuple of its fields |
| `LayoutBounds.UnlistedIsEmpty` | crates/lirien-ir/src/ir/types.rs:263-276 | a name the table does not list has size 0, alignment 1 and no leaves |
| `LayoutBounds.ElementsFit` | crates/lirien-ir/src/ir/types.rs:259 | element k of an array stands k element sizes in, aligned and inside |
| `LayoutBounds.TupleAlignment` | crates/lirien-ir/src/ir/types.rs:381-389 | the alignment of a tuple is the least that is a multiple of every item's |
| `LayoutBounds.NamedAlignment` | crates/lirien-ir/src/ir/types.rs:353-380 | the same of named records and unions |
| `LayoutBounds.PayloadAlignment` | crates/lirien-ir/src/ir/types.rs:390-392 | and of an option and its payload |
| `Layout.GetLeafOffsets` | crates/lirien-verify/src/verifier/mod.rs:23-56 | appends the leaves of a type in field order at their offsets |
| `Layout.LeavesPacked` | crates/lirien-verify/src/verifier/mod.rs:23-56 | in an aligned object the leaves are aligned, inside it, and pairwise disjoint |
| `LayoutBounds.PathHasLeaf` | crates/lirien-verify/src/verifier/mod.rs:23-56 | whatever a path of field numbers leads to is a leaf, at the sum of the field offsets on the way |
| `LayoutBounds.LeafHasPath` | crates/lirien-verify/src/verifier/mod.rs:23-56 | every leaf is what some path leads to |
| `Layout.GetFieldOffset` | crates/lirien-ir/src/builder/mod.rs:73-85 | the offset of the first field of that name, or nothing |
| `Layout.FieldOffsetAgrees` | crates/lirien-ir/src/builder/mod.rs:73-85 | at that offset the leaf walk puts exactly that field's leaves |
| `Broadcast.OffsetOfCell` | crates/lirien-backend/src/cranelift/mod.rs:298-308 | splitting a position by division and remainder and joining it row-major gives it back, within bounds |
| `Broadcast.CellOfOffset` | crates/lirien-backend/src/cranelift/mod.rs:298-308 | joining and splitting gives the cell back |
| `Broadcast.OffsetOfNeighbour` | crates/lirien-backend/src/cranelift/mod.rs:270-278 | a step along a dimension moves by the product of the later ones, 1 for the last |
| `Broadcast.KernelStrides` | crates/lirien-backend/src/cranelift/mod.rs:280-296 | right-aligned strides: row length where the dimensions agree, 0 where the source is stretched or missing |
| `Broadcast.ShownCell` | crates/lirien-backend/src/cranelift/mod.rs:280-296 | a target cell shows exactly one source cell, itself if the shapes are equal |
| `Broadcast.AccumulatedIsOffset` | crates/lirien-backend/src/cranelift/mod.rs:298-308 | the accumulated offset is the source cell's position |
| `Broadcast.Broadcast` | crates/lirien-backend/src/cranelift/mod.rs:264-313 | every target cell holds the source cell that, counted from the last dimension, has the same coordinates but where the source has length 1; every read is in bounds |
| `GrowList.ListHeader.constructor` | crates/lirien-backend/src/cranelift/mod.rs:324-330 | an empty list |
| `GrowList.ListHeader.Grow` | crates/lirien-backend/src/cranelift/mod.rs:448-465 | capacity 4, then doubled; the elements are kept |
| `GrowList.ListHeader.Append` | crates/lirien-backend/src/cranelift/mod.rs:445-470 | one element at the end; len ≤ cap |
| `GrowList.ListHeader.Length` | crates/lirien-backend/src/cranelift/mod.rs:472-474 | the number of elements |
| `GrowList.ListHeader.Get` | crates/lirien-backend/src/cranelift/mod.rs:476-491 | an offset at which the element's bytes lie, or an error iff out of bounds |
| `GrowList.ListHeader.Set` | crates/lirien-backend/src/cranelift/mod.rs:493-509 | that element replaced and no other, or an error iff out of bounds |
| `GrowList.OverwriteChunk` | crates/lirien-backend/src/cranelift/mod.rs:493-509 | overwriting one element's bytes changes that element alone, for any element size |
| `GrowList.FromItems` | crates/lirien-backend/src/cranelift/mod.rs:445-470 | n appends from empty give exactly the n elements and move fewer than 2n |

## Left out

- SsaOutput.BuiltWellFormed: says nothing of graphs in which a terminator is not last or jumps where its block is not
  linked to, which by `WellFormedExactly` are not well-formed. The front end builds them in three places: `while` with a
  boolean operator as its test branches in the operator's merge block but links from the header
  (crates/lirien-ir/src/builder/visitor/statements/loops.rs:42-45); a match guard with such an operator does the same
  (crates/lirien-ir/src/builder/visitor/statements/conditionals.rs:338-346); and statements after a return are still
  emitted (crates/lirien-ir/src/builder/visitor/statements/mod.rs:84-97).
- SsaBuilder.CFGBuilder.LinkBlocks: two callers link in another order. The return block for unhandled exceptions is
  sealed before it is linked (crates/lirien-ir/src/builder/visitor/helpers.rs:64-86); it reads no variable. A non-final
  case without a guard links from a block that is unsealed and has no predecessors yet
  (crates/lirien-ir/src/builder/visitor/statements/conditionals.rs:349-353).
- SsaBuilder.CFGBuilder.Assign: a list comprehension whose element is a boolean operation writes its list variable to a
  block that already has successors (crates/lirien-ir/src/builder/visitor/expressions/mod.rs:660-673); the model forbids
  it, because what a successor read before such a write is no longer the variable's value.
- SsaClient.BuildCountdown: one loop; `for`, `match` and `try` are not built.
- Translation.TranslationContext.DeclareConditions: the edges of `Match` and `ParallelFor`.
- Translation.TranslationContext.TranslateOp: the float, `Abs`, minimum, maximum and tensor operations of the cited
  lines.
- Translation.TranslationContext.TranslateInstructions: asks for loop-free functions whose values are plain integers or
  booleans.
- FoldExamples.RetypedFoldsWrong: an operation on operands of different widths has no machine code
  (crates/lirien-backend/src/cranelift/lower/arithmetic.rs:10-17 extends neither operand); the model reads a narrower
  operand as its unsigned value, so 1 is what the graph means here before folding and not what a compiled program
  returned.
- ConstFold.FoldConstants: the float folds; floats stay uninterpreted, only integer folding is modelled.
- Pipeline.Optimize: type propagation, which runs first, assigns types, and turns operators on floats, strings and lists
  into their own instructions; the function given here is the one it leaves. The interval embedding that runs last does
  nothing in the code (crates/lirien-ir/src/optimization/inference.rs:9-13).
- Pipeline.OptimizePreservesRuns: likewise starts after type propagation.
- Exactness.ChecksExact: an unsigned division by zero, for which the verifier queues no check.
- Exactness.DivisionCheckExact: asks that no branch has equal targets, as no branch the front end builds has;
  `ModelExists` says what the constraints of such a branch would mean.
- Loop-header phis, `Assert`, loop invariants, `Match` and `ParallelFor` edges in the exactness theorem: back edges are
  tied to entry edges and asserted facts are assumed, so the equivalence is a claim about loop-free code without them.
- Facts from refinements, callee contracts and derived intervals; the interval shortcut that skips a division check is
  treated as never applying.
- Float and memory constraints in the encoding: the theorem covers functions whose values are all plain integers or
  booleans.
- The thread-local caches of `is_reachable` and `get_cached_instruction`; the uncached functions are modelled.
- Aliasing and in-place `TensorStore`: tensors are immutable values.
- Loop unrolling in the pipeline.
- Overflow of `i64` in folding is the release build's wrap-around; a debug build panics instead.
- Comparisons give 0 or 1, as the verifier encodes them; the all-ones masks of the lowering are not modelled.
- The comment on `optimize` and docs/architecture_pipeline.md say that dead-code elimination removes unreachable blocks;
  the code removes none, and the model follows the code.
- The builder's type bookkeeping on phis, instruction locations, and `insert_instruction_before_terminator`.
- Constraint strings, such as the one that repeats a branch's condition at the head of each target. They are further
  assertions, so a query without a model stays without one; the equivalences are about the constraints of the
  instructions.
- Looking a block up by id is an index in the builder, where ids are positions; elsewhere it is a search.
- A tensor shape mismatch, which the verifier reports, gives `Undef`.
- Overflow of `usize` in sizes, totals and capacities, and running out of memory.
- Names of structs, typed dictionaries and named tuples are one case of the type table, as are the 128-bit vector types.
- Layout tables in which a type contains itself by value: the original recursion would not return.
- Appending elements of size 0 to a list, where the allocator's contract is already broken.
- The solver, instruction selection, the Python side, caches, locks and diagnostics.
