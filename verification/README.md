# A verified model of the CovScript compiler and interpreter core

CovScript is a scripting language with a compiler front end and a tree-walking interpreter written from
scratch. This project models the parts whose correctness is hardest to see from the code, and proves what
they promise.

- **Expression trees** (`Signals`, `Trees`, `Precedence`, `AssignmentChains`, `TreeHeap`, `Parser`,
  `TreeBuilder`, `OperatorFamilies`, `ParserTheorems`). A parent-linked tree of heap nodes, the edits on it, `split_token`,
  `build_tree` and `gen_tree`. The in-place build refines a recursive function, keeps the tree well linked,
  gives back the token list, and its result is the only precedence-ordered tree over the tokens. How operators
  of any two families group is stated by name, apart from the level table.
- **Evaluation, trimming and constant folding** (`Numeric`, `Values`, `Evaluator`, `OperatorLaws`, `Optimizer`,
  `Trimmer`, `TrimmerHeap`, `OptimizerHeap`, `Acceptance`, `ExpressionCompiler`, `EmptyBranches`,
  `ConstantExpressions`, `ProgramOptimizer`, `NormalForms`).
  `parse_expr` on scalars, identifiers, groups and assignments; `trim_expr` and `opt_expr` as in-place
  rewrites proved to compute functions, and those functions proved to keep value, error and store. `gen_tree`
  finishes every parenthesised group with both passes before it grows the tree around it; the final tree is
  proved to mean what the expression means as written. What each operator computes is stated by the equation that
  determines the result, and which trees the passes accept operator by operator. What becomes a constant, said of
  the expression; and folding over whole programs.
- **Numbers and ranges** (`Numeric`, `Ranges`). Overflow-checked power, exact mixed comparison, hashing,
  range iteration with the clamp at the ends of 64 bits.
- **Statements** (`Statements`, `StatementLaws`, `LoopLaws`, `StatementMachine`, `Lowering`, `Translator`,
  `BlockLaws`, `LoopCheck`). A structured
  semantics with five outcomes; the interpreter with its three flags, domain stack and value stack refines
  it; lowering of constant conditions; the `loop_depth` check of break and continue, and what it means for
  every run of the program generated from accepted lines.
- **Lexer passes** (`Brackets`, `BracketTheorems`, `GroupShapes`, `SignalSplit`). Bracket joining and grouping with an exact
  acceptance condition and a round trip; leftmost-longest splitting of operator characters.
- **Variable storage** (`Storage`, `DomainManager`, `Transactions`). Domains, identifiers with a cached
  place, the domain and record stacks, the stacks of fibers, snapshots and rolled-back transactions, nested
  ones included.
- **Function store** (`FunctionStore`). Stable indices under nested transactions.
- **Fibers** (`Fibers`, `FiberRuntime`). resume, yield, sleep and finish as steps of a machine, and as
  methods that change fiber objects, the chain and the current process in place.

`Options` holds the optional value used by all of them.

## How to read it

Code that changes things step by step is a class or a method with loops, proved against a function of the
values involved; the properties are then lemmas about that function. Error branches of the original are
`None`, `Fail`, or a false `ok`, never a precondition. Three things are parameters because the language of
the original leaves them open: the order in which C++ evaluates the two operands of a binary operator, the
result of floating-point arithmetic, and the result of signed 64-bit overflow (`Evaluator.Host`). Runs of
statements are cut off by `fuel`; `Statements.FuelIrrelevant` shows that a run which ends does so alike with
any more of it.

## Where the code does not do what one might expect

Each is proved on a concrete input or family of inputs, together with the exact condition under which the
expected property does hold; for groups with an empty branch the condition is sufficient.

- A chain of assignments is not right-associative: `a = b = c = d` is built as `a = ((b = c) = d)`
  (`Precedence.AssignmentChain`), because an equal level always inserts at the first matching node of the
  right spine. A built tree groups its assignments to the right exactly when no three of them stand in the
  list without a looser operator between the first and the third (`AssignmentChains.BuildIsRightOrdered`).
  `Precedence.BuildIsTheOnlyOrderedTree` gives the order that does hold for every list.
- `loop ... until true` is lowered to a plain block, which does not consume break or continue. On a given
  run the two forms agree exactly when the body neither breaks nor continues (`Lowering.UntilTrueIsABlock`).
  A break of the body then belongs to the next loop around it, if there is one that stays a loop; if there
  is none, it ends up outside every loop although it passed the `loop_depth` check
  (`Lowering.LoweringCanStrandABreak`). The lowered program keeps every break and continue inside a loop
  exactly when each of them stands in a loop that stays one or in dropped code (`Lowering.LoweredIsSafe`);
  for a program that passed the check, that comes down to the bodies of the loops that become blocks
  (`Lowering.LowerKeepsSafe`, `LoopCheck.GeneratedIsSafe`).
- A group is trimmed once for every pair of parentheses around it, and that is not the same as once when a
  conditional has an empty branch: in `(x += (true ? : 2) - 1)` the inner group is finished to the null operand,
  and the next trim takes the minus sign for a negation, so `x` is lowered where the expression as written fails
  (`EmptyBranches.EmptyBranchChangesMeaning`). When nothing that may come down to an empty branch stands on the
  left of `-` or `*`, the expression keeps its meaning through every pass (`ExpressionCompiler.CompiledMeans`).
  That direction only: elsewhere the two still agree on runs that never reach the operand, or fail either way.
- Folding a call argument is visible to the function called. An operator's result is a temporary, which the
  parameter may be assigned to; its folded form is a protected constant, and the assignment fails: with
  `1 + 2` as argument a call ends normally, with its folded form `3` it ends by an error
  (`ProgramOptimizer.FoldingOnePlusTwoChangesACall`, for every constant operator expression
  `ProgramOptimizer.FoldingChangesACall`). The parameter is bound alike exactly when the argument is a written
  constant or no constant expression, of a conditional the branch taken (`ProgramOptimizer.FoldedArgument`); a
  constant expression is a constant, the name of one, an operator on such operands that does not fail, or a
  conditional that always takes such a branch (`ConstantExpressions.ConstantExactly`). Where every argument
  stays in place, optimizing changes no program's outcome or store (`ProgramOptimizer.Same`).
- A cached variable lookup can differ from a fresh scan after an inner scope gains the same name
  (`Transactions.CacheSkipsLaterBinding`); it agrees exactly when the cache skips no domain that holds the
  name (`DomainManager.Manager.GetVarById`).
- Defining a variable by identifier looks at the cache only, so it silently rebinds a name that a definition
  by name would refuse (`Transactions.IdentifierRebinds`). It is refused exactly when a definition by name
  is and the cache points here (`Storage.Domain.RefusalsDiffer`).
- Moving a domain leaves its identity behind and drops its `optimize` flag (`Storage.Domain.Move`); a move
  assignment leaves identities and flags where they are (`Storage.Domain.MoveAssign`). A cache that points
  at a domain stays right after the exchange exactly when the other table has its name in the same slot
  (`Storage.Domain.MoveAssignUnderCache`). The reversal inside a snapshot is harmless because no cache points
  at the copies it turns round (`DomainManager.Manager.CreateSnapshot`).
- A function-store index that an inner transaction committed survives the rollback of the outer one
  (`FunctionStore.CommittedForever`). A rolled-back transaction is undone entirely, up to empty slots at the
  end, exactly when every commit inside it closes a transaction that added nothing of its own
  (`FunctionStore.RolledBackExactly`).

## Model

| member | source | states |
|---|---|---|
| `Signals.TablesAgree` | sources/compiler/compiler.cpp:434-481 | the level table and the associativity set agree: the re-associating signals are exactly those of level 1 |
| `OperatorFamilies.LevelsOrderFamilies` | sources/compiler/compiler.cpp:434-481 | the levels order the families of operators, listed by name from comma to declaration, and the assignments are one family |
| `OperatorFamilies.ListedExactly` | sources/compiler/compiler.cpp:434-481 | a signal has a level exactly when it is in a family |
| `OperatorFamilies.FamiliesGroup` | sources/compiler/parser.cpp:298-322 | for all operands, two operators of any two families build `a s (b u c)` exactly when the second family binds tighter or both are assignments, and `(a s b) u c` otherwise |
| `OperatorFamilies.FamiliesParse` | sources/compiler/parser.cpp:326-354 | the same for the tree of the token list, whose operands may be groups or missing |
| `OperatorFamilies.ProductsInSums` | sources/compiler/parser.cpp:298-322 | `a + b * c` and `a * b + c` are built as sums |
| `TreeHeap.TreeType.EmplaceRootLeft` | include/covscript/core/components.hpp:1613-1632 | a new node takes the place of `it` and has it as left child; everything else and all parent links are kept; refused only on a missing position in a tree that is not empty |
| `TreeHeap.TreeType.EmplaceLeftLeft` | include/covscript/core/components.hpp:1655-1665 | a new node between `it` and its left child, links kept |
| `TreeHeap.TreeType.EmplaceRightLeft` | include/covscript/core/components.hpp:1679-1689 | a new node between `it` and its right child, the old child on its left, links kept |
| `TreeHeap.TreeType.EmplaceRightRight` | include/covscript/core/components.hpp:1691-1701 | a new node between `it` and its right child, the old child on its right, links kept |
| `TreeHeap.TreeType.ReserveLeft` | include/covscript/core/components.hpp:1724-1746 | `it` is replaced by its left subtree, the rest of the tree unchanged |
| `TreeHeap.TreeType.ReserveRight` | include/covscript/core/components.hpp:1748-1770 | `it` is replaced by its right subtree, the rest of the tree unchanged |
| `TreeHeap.TreeType.EraseLeft` | include/covscript/core/components.hpp:1772-1779 | the left subtree of `it` is gone, the rest unchanged |
| `TreeHeap.TreeType.EraseRight` | include/covscript/core/components.hpp:1781-1788 | the right subtree of `it` is gone, the rest unchanged |
| `TreeHeap.TreeType.CopyOf` | include/covscript/core/components.hpp:1352-1359 | a copy is a well-linked tree of the same value in new nodes only |
| `Parser.SplitToken` | sources/compiler/parser.cpp:246-269 | succeeds exactly when there is no keyword token, and leaves the signals and operands of the scan, null operands filled in |
| `Parser.ScanCounts` | sources/compiler/parser.cpp:250-268 | operands never fall short of signals, and exceed them by exactly one just when no two operands are adjacent |
| `Parser.ScanReadsBack` | sources/compiler/parser.cpp:246-269 | interleaving the split lists and dropping the null operands gives the raw list without its nulls |
| `Parser.SplitReadsExpression` | sources/compiler/parser.cpp:246-269 | the inverse: an expression written out without its null operands is split into exactly its signals and operands again |
| `TreeBuilder.InsertSignal` | sources/compiler/parser.cpp:298-322 | the walk down the right spine puts the operator where `Climb` says and fails exactly on an operator without a level |
| `TreeBuilder.BuildTree` | sources/compiler/parser.cpp:271-324 | the nested in-place loops build exactly the tree of the recursive specification over the operands, groups finished first, or fail exactly when it has none; the tree stays well linked |
| `TreeBuilder.GenTree` | sources/compiler/parser.cpp:326-356 | the recursive build over parenthesised groups, with the closing trim and fold of every tree or without it, computes `Parse`, and fails exactly when it does |
| `Trees.BuildInOrder` | sources/compiler/parser.cpp:296-323 | the built tree is a complete expression and reads operand, operator, operand and so on |
| `Precedence.BuildOrdered` | sources/compiler/parser.cpp:298-322 | every built tree is precedence-ordered, assignments included |
| `Precedence.OrderedUnique` | sources/compiler/parser.cpp:298-322 | two ordered trees with the same reading are equal |
| `Precedence.BuildIsTheOnlyOrderedTree` | sources/compiler/parser.cpp:298-322 | a complete tree with the right reading is ordered if and only if it is the built one |
| `Precedence.BuildWithoutAssignments` | sources/compiler/parser.cpp:298-322 | without assignment operators the built tree is the only one that groups to the left by level |
| `Precedence.BuildIsSplitTree` | sources/compiler/parser.cpp:298-322 | inserting one operator at a time equals splitting recursively at the lowest level, last occurrence, or first one for an outermost assignment |
| `Precedence.AssignmentChain` | sources/compiler/parser.cpp:308-315 | three assignments in a row build `a = ((b = c) = d)`, an input on which right-associativity fails |
| `AssignmentChains.BuildIsRightOrdered` | sources/compiler/parser.cpp:298-322 | a built tree groups assignments to the right and the rest to the left if and only if no three assignments stand in the list without a looser operator between the first and the third |
| `ParserTheorems.ParseSpellsTokens` | sources/compiler/parser.cpp:246-354 | writing the tree as built out again, parentheses included, gives the raw tokens without nulls |
| `ParserTheorems.ParseIsOrdered` | sources/compiler/parser.cpp:326-354 | as built, a list of several tokens gives a complete, ordered expression, and so does the inside of every group at any depth |
| `ParserTheorems.ParseAccepts` | sources/compiler/parser.cpp:246-356 | exact acceptance: an operator, no adjacent operands, no keyword, known levels, and the operands of the tree over the list are the ones its operators take (`Acceptance.Acceptable`); and the same inside every group, so a rejected group rejects the whole |
| `Numeric.ComparisonsAreExact` | include/covscript/core/components.hpp:352-388 | all five comparisons, mixed or not, agree with the exact order on reals and infinities; NaN is unordered |
| `Numeric.TotalPreorder` | include/covscript/core/components.hpp:678-801 | on non-NaN numbers `<=` is total and transitive, with `==` as its equivalence and `<` as its strict part |
| `Numeric.EqualNumbersHashEqually` | include/covscript/impl/type_ext.hpp:679-693 | numbers that compare equal have the same hash, whatever the integer and float hashes are |
| `Numeric.OverflowTestIsExact` | include/covscript/core/components.hpp:418-433 | the overflow test is true exactly when the product does not fit in 64 bits |
| `Numeric.PowLoop` | include/covscript/core/components.hpp:434-452 | the loop returns the exact power if it fits in 64 bits and falls back to float otherwise; no product or square on the way overflows |
| `Numeric.SquareIsNotTheBound` | include/covscript/core/components.hpp:443-450 | no square is 2^63, so refusing a square never gives up a power that fits |
| `Numeric.IntPow` | include/covscript/core/components.hpp:390-453 | for exponents from 0 on, the exact power or the float fallback; for negative ones, infinity on base 0 and float otherwise |
| `Ranges.RangeIterator.Advance` | include/covscript/core/core.hpp:1285-1302 | the index moves by the step, clamped to the end of 64 bits it would pass |
| `Ranges.LengthIsExact` | include/covscript/core/core.hpp:1275-1283 | element k lies strictly before the stop exactly when k is less than the length |
| `Ranges.Iterate` | include/covscript/core/core.hpp:1254-1340 | iteration ends for every 64-bit start, stop and step and yields exactly start, start + step and so on before the stop |
| `Evaluator.TruncRemFits` | include/covscript/core/components.hpp:595-615 | the integer remainder always fits, is smaller than the divisor in size and has the sign of the dividend |
| `Evaluator.EvalFrame` | sources/instance/runtime.cpp:445-630 | evaluating an expression binds and unbinds no name and keeps every cell reference valid |
| `OperatorLaws.ArithmeticIsExact` | include/covscript/core/components.hpp:486-615 | on integer operands of any shape the result is the 64-bit integer that solves the equation of the operator: `r - j == i` for `+`, `r + j == i` for `-`, a product, an exact quotient, a remainder with the sign of the dividend, a power |
| `OperatorLaws.ArithmeticOtherwise` | include/covscript/core/components.hpp:561-615 | without such an integer: division by zero can be caught, zero to a negative power is infinite, the rest is floating point |
| `OperatorLaws.FloatArithmetic` | include/covscript/core/components.hpp:486-615 | with a float on either side, the floating-point operation on the two in this order |
| `OperatorLaws.ArithmeticRefuses` | include/covscript/core/components.hpp:486-615 | operands that are no numbers are refused, the left one first |
| `OperatorLaws.ArithmeticOfNothing` | sources/instance/runtime.cpp:505-610 | and so are variables without a value |
| `OperatorLaws.NegationIsExact` | include/covscript/core/components.hpp:862-868 | a negated integer gives zero when the operand is added |
| `OperatorLaws.ComparisonIsExact` | include/covscript/core/components.hpp:352-388 | every comparison of numbers gives what the exact order on the extended reals says, NaN being equal to nothing |
| `OperatorLaws.EqualityOfOthers` | sources/instance/runtime.cpp:331-339 | equality of values that are not both numbers |
| `OperatorLaws.OrderOfOthers` | sources/instance/runtime.cpp:567-600 | other values of one kind cannot be ordered, and values of different kinds are in no order |
| `OperatorLaws.NothingCompares` | sources/instance/runtime.cpp:567-600 | a variable without a value is in no order and equal to nothing |
| `OperatorLaws.OperandFails` | sources/instance/runtime.cpp:505-610 | the first operand that fails, in the host's order, ends the evaluation with its error |
| `OperatorLaws.FirstOperandFails` | sources/instance/runtime.cpp:310-349 | a failing condition or left side ends a conditional, a conjunction or a disjunction |
| `OperatorLaws.OnlyOperandFails` | sources/instance/runtime.cpp:351-357 | so does a failing operand of a sign or a negation |
| `OperatorLaws.NegatesTruth` | sources/instance/runtime.cpp:351-357 | `!` of a boolean is the other one |
| `OperatorLaws.ShortCircuit` | sources/instance/runtime.cpp:341-349 | when the left side decides, the right one is not evaluated |
| `OperatorLaws.RightSideDecides` | sources/instance/runtime.cpp:341-349 | a conjunction or disjunction takes the truth of the right side when the left one leaves it open |
| `OperatorLaws.TakesBranch` | sources/instance/runtime.cpp:310-321 | a conditional evaluates to the branch its condition takes, and evaluates no other |
| `OperatorLaws.InnermostBinding` | sources/instance/runtime.cpp:445-475 | a name stands for its innermost binding |
| `OperatorLaws.UnboundFails` | sources/instance/runtime.cpp:445-475 | a name without a binding is an error |
| `OperatorLaws.AssignmentWrites` | sources/instance/runtime.cpp:575-576 | an assignment changes one cell to the value of its right side, or is refused for a protected one |
| `OperatorLaws.AssignmentOfNothing` | sources/instance/runtime.cpp:575-576 | with a variable without a value on either side no variable changes, and the result is a copy of the right side |
| `OperatorLaws.CompoundWrites` | sources/instance/runtime.cpp:30-104 | `x op= y` leaves in `x` what `x op y` evaluates to, operator by operator, and fails like it |
| `Optimizer.FoldSame` | sources/compiler/compiler.cpp:1249-1266 | replacing an operator on constants by its value, or keeping it when it fails, changes no result |
| `Optimizer.OptKeepsExpr` | sources/compiler/compiler.cpp:888-1267 | the rewritten tree is again a complete expression |
| `Optimizer.OptPreserves` | sources/compiler/compiler.cpp:888-1267 | for every tree, in every store that agrees with the compile-time constants the rewritten tree has the same error, the same value, up to whether it is a temporary or a constant, and the same store, short-circuiting included |
| `Optimizer.OperatorStands` | sources/instance/runtime.cpp:505-610 | congruence: an operator whose operands have the same results in every store that agrees with the constants has the same result itself, assignments and compound assignments included |
| `Optimizer.ChoiceStands` | sources/instance/runtime.cpp:310-318 | the same for a conditional, its condition and its branches |
| `OptimizerHeap.OptExpr` | sources/compiler/compiler.cpp:888-1267 | the in-place rewrite computes the folding function and rejects exactly when it does; the tree stays well linked |
| `OptimizerHeap.FoldNode` | sources/compiler/compiler.cpp:1249-1266 | the node becomes the folded value without children, or stays as it is |
| `OptimizerHeap.ChooseConstant` | sources/compiler/compiler.cpp:1019-1044 | a constant condition is replaced by its branch; a constant that is no boolean is rejected |
| `TreeHeap.TreeType.Merge` | include/covscript/core/components.hpp:1790-1801 | a node becomes the root of a copy of another tree, everything around it and all parent links kept |
| `TrimmerHeap.TrimExpr` | sources/compiler/compiler.cpp:514-886 | the in-place pass computes the trimming function, groups merged at any depth, and rejects exactly when it does; the tree stays well linked |
| `Trimmer.TrimIsExpr` | sources/compiler/compiler.cpp:514-886 | a trimmed tree is a complete expression |
| `Trimmer.TrimmedIsPlain` | sources/compiler/compiler.cpp:542-551 | no group is left in a trimmed tree, and only operators that folding and evaluation know |
| `Trimmer.TrimKeepsMeaning` | sources/compiler/compiler.cpp:542-590 | in every store the trimmed tree evaluates like the written one, in which a minus sign without a left operand negates |
| `OptimizerHeap.OptimizeExpression` | include/covscript/impl/compiler.hpp:262-267 | the whole tree is trimmed and, with the optimizer on, folded, or is rejected; either way it means what the tree meant as written |
| `Acceptance.TrimExactly` | sources/compiler/compiler.cpp:514-886 | trimming accepts a tree exactly when each operator has the operands it takes and lacks the ones it must not have, at every depth and inside groups; what it gives is the tree with groups merged and signs marked |
| `Acceptance.OptExactly` | sources/compiler/compiler.cpp:888-1267 | folding accepts a tree exactly when its operands are still there and every constant condition is a boolean |
| `Acceptance.OptimizedExactly` | include/covscript/impl/compiler.hpp:262-267 | both passes together accept exactly these trees |
| `NormalForms.OptReduces` | sources/compiler/compiler.cpp:888-1267 | folding leaves no name of a constant, no operator on constants that has a value and no conditional with a constant condition, wherever it looks |
| `NormalForms.ReducedStays` | sources/compiler/compiler.cpp:888-1267 | folding again changes nothing, if the tree is accepted again |
| `ExpressionCompiler.CompiledMeans` | sources/compiler/parser.cpp:326-356 | a token list whose groups are trimmed and folded one by one, innermost first, is also accepted as written; if no `-` or `*` has a left operand that may come down to an empty branch, the final tree has the same value or error and store as the ordered, parenthesised expression over the tokens |
| `ExpressionCompiler.RefinedStands` | sources/compiler/parser.cpp:280-292 | a tree with finished groups in the place of groups as written means the same |
| `ExpressionCompiler.CompileExpression` | sources/compiler/parser.cpp:326-356 | the in-place build with its closing passes accepts exactly the accepted lists, every group and the whole; under the condition of `CompiledMeans` the tree means what the expression means as written |
| `EmptyBranches.EmptyBranchChangesMeaning` | sources/compiler/compiler.cpp:542-590 | with an empty branch below a compound assignment, in parentheses, the second trim turns a subtraction into a negation: as written the expression fails, as compiled it assigns |
| `ConstantExpressions.ConstantExactly` | sources/compiler/compiler.cpp:888-1267 | folding leaves a constant if and only if the expression is a constant, a constant's name, an operator on constant operands that does not fail, or a conditional that always takes a constant branch |
| `ConstantExpressions.SameResultExactly` | include/covscript/impl/compiler.hpp:397-410 | the folded tree has the very same result, temporary or constant included, exactly when the expression is a written constant or no constant expression, of a conditional the branch taken |
| `ProgramOptimizer.Same` | sources/compiler/compiler.cpp:888-1267 | folding every expression of a program and of its functions changes neither outcome nor store, for any cut-off, where call arguments stay in place and no compile-time constant is bound anew |
| `ProgramOptimizer.FoldedArgument` | sources/instance/runtime.cpp:420-432 | a parameter is bound alike to an argument and to its folded form exactly when the argument stays in place |
| `ProgramOptimizer.FoldingChangesACall` | sources/covscript.cpp:291-296 | a function that assigns to its parameter accepts an operator's result and fails on its folded form |
| `ProgramOptimizer.FoldingOnePlusTwoChangesACall` | sources/covscript.cpp:291-296 | the same for the argument `1 + 2`, whose folded form is `3` |
| `NormalForms.OptimizeReduces` | sources/compiler/compiler.cpp:888-1267 | the optimizer leaves no expression of a program unfolded, at any depth of statements |
| `Statements.SafeNeverEscapes` | sources/instance/statement.cpp:351-760 | a statement whose breaks and continues all lie inside its own loops never ends by one |
| `Statements.FuelIrrelevant` | sources/instance/statement.cpp:351-1050 | a run that ends, ends with the same outcome and store under any larger cut-off |
| `StatementLaws.SimpleStatements` | sources/instance/statement.cpp:259-372 | an expression runs for what it writes, break and continue change nothing, a block adds a scope |
| `StatementLaws.IfFails` | sources/instance/statement.cpp:418-502 | a condition that fails is an error before any branch |
| `StatementLaws.IfTakesBranch` | sources/instance/statement.cpp:418-502 | both forms of `if` run the branch their condition takes, in a scope of its own, after the condition |
| `StatementLaws.WhileRound` | sources/instance/statement.cpp:552-605 | one more round of a `while`: its condition, its body, and what each end of the body does to the loop |
| `StatementLaws.UntilRound` | sources/instance/statement.cpp:658-712 | the closing condition is looked at after every round that is not left, by a continue included |
| `StatementLaws.DefinitionBinds` | sources/instance/statement.cpp:303-315 | a new variable has the value of its expression in a cell of its own |
| `StatementLaws.ErrorsAreCaught` | sources/instance/statement.cpp:994-1050 | a script error reaches the handler in a scope that binds it; every other end of the body passes by |
| `StatementLaws.ThrowsErrors` | sources/instance/statement.cpp:1052-1065 | an error object is thrown with its text, and nothing else can be thrown |
| `StatementLaws.ReturnsValue` | sources/instance/statement.cpp:977-985 | `return` ends a function with its value, or the null pointer, and is an error outside functions |
| `StatementLaws.CallFails` | sources/instance/runtime.cpp:418-433 | arguments are evaluated from left to right; the first that fails, an unknown function and a wrong number of arguments end the call |
| `StatementLaws.ParametersBound` | sources/instance/statement.cpp:96-97 | each parameter is the variable passed for it, or a new cell with the value passed, protected for a constant |
| `StatementLaws.CallBinds` | sources/instance/statement.cpp:80-99 | a call with one variable runs the body over that variable and binds the name on the left to what is returned |
| `LoopLaws.StepRuns` | sources/instance/statement.cpp:713-760 | after a round that ends normally or by continue the next condition sees the store the step leaves; a step that fails ends the loop |
| `LoopLaws.ForIsWhile` | sources/instance/statement.cpp:713-760 | a `for` whose body does not continue ends as the block of its definition and the `while` over body and step |
| `LoopLaws.SafeForIsWhile` | sources/instance/statement.cpp:713-760 | in particular for bodies that keep break and continue inside loops of their own |
| `LoopLaws.CountingLoop` | sources/instance/statement.cpp:713-760 | `for x = 0, x < n, x += 1` over a body that leaves `x` alone ends exactly when n rounds may be run, after n rounds of body and step, with `x` at n |
| `StatementMachine.Instance.RunBody` | sources/instance/statement.cpp:351-372 | a body runs its statements until a flag is set; flags, domains and value stack show the structured outcome |
| `StatementMachine.Instance.RunScoped` | include/covscript/impl/impl.hpp:263-313 | the domain pushed for a scope is popped on every outcome, throw included |
| `StatementMachine.Instance.Run` | sources/instance/statement.cpp:259-1065 | every statement refines its structured meaning: outcome, store, and both stacks at the height found |
| `StatementMachine.Instance.RunIf` | sources/instance/statement.cpp:418-502 | if and if-else refine their structured meaning |
| `StatementMachine.Instance.RunLoop` | sources/instance/statement.cpp:552-760 | while, loop, loop-until and for clear break and continue flags left over at entry and refine their structured meaning, with both flags clear at the end |
| `StatementMachine.Instance.RunRound` | sources/instance/statement.cpp:575-592 | one round of a loop consumes a break or a continue and passes a return on |
| `StatementMachine.Instance.RunTry` | sources/instance/statement.cpp:994-1039 | an error in the body is bound in the handler's scope with the stacks as at entry; other outcomes pass through |
| `StatementMachine.Instance.RunCall` | sources/instance/statement.cpp:80-99 | a call checks the argument count, binds by sharing cells, and gives back the value the function left on the value stack |
| `StatementMachine.Instance.RunFunction` | sources/instance/statement.cpp:44-68 | a function body ends by return or at its end, the return flag is clear again and its result is on top of the value stack |
| `StatementMachine.Instance.RunReturn` | sources/instance/statement.cpp:977-985 | return leaves its value in the slot of the running call and sets the flag; outside a function it is an error |
| `Lowering.ConstantTest` | sources/compiler/codegen.cpp:321-548 | testing a constant boolean changes nothing and cannot fail |
| `Lowering.UntilTrueIsABlock` | sources/compiler/codegen.cpp:571-599 | `loop ... until true` equals the plain block exactly when the body neither breaks nor continues |
| `Lowering.UntilTrueLosesBreak` | sources/compiler/codegen.cpp:578-585 | on a body that starts with break the loop ends normally and the block breaks |
| `Lowering.LoweringCanStrandABreak` | sources/compiler/codegen.cpp:578-585 | a program with every break inside a loop can be lowered to one with a break outside any |
| `Lowering.LoweredIsSafe` | sources/compiler/codegen.cpp:321-599 | the lowered program has every break and continue inside a loop if and only if each stands in a loop that stays a loop or in code that is dropped |
| `Lowering.StaysNeverEscapes` | sources/compiler/codegen.cpp:321-599 | a statement whose breaks and continues stay in loops or stand in dropped code never ends by one |
| `Lowering.SafeStrandsNone` | sources/compiler/codegen.cpp:571-599 | for a program that passed the loop check this holds if and only if no loop that becomes a block outside every other one has a break or continue left |
| `Lowering.EndlessRounds` | sources/compiler/codegen.cpp:520-599 | `while true` and `loop until false` run like the plain endless loop |
| `Lowering.LowerKeepsSafe` | sources/compiler/codegen.cpp:321-599 | a program that passed the loop check keeps every break and continue inside a loop when lowered if and only if no loop that becomes a block strands one |
| `Lowering.LoweringPreservesMeaning` | sources/compiler/codegen.cpp:321-599 | whole programs, functions included: an outcome and store are reached before lowering if and only if they are reached after, when outside dropped code no loop that becomes a block has a break or continue of its own |
| `Translator.NestFlatten` | sources/compiler/compiler.cpp:1530-1644 | the lines of every legal nesting of statements are translated back to that nesting |
| `Translator.NestSound` | sources/compiler/compiler.cpp:1530-1644 | whatever is translated is legal and reads back as its lines |
| `Translator.NestIsExact` | sources/compiler/codegen.cpp:685-792 | exact acceptance: blocks close properly and a break or continue has a loop of the same function around it, at any depth |
| `Translator.Compiler.Translate` | sources/compiler/compiler.cpp:1530-1644 | the line loop with its deferred scan computes the reference translation and returns with `loop_depth` as found |
| `Translator.Compiler.TranslateBlock` | sources/compiler/codegen.cpp:744-792 | a closed block is translated with the depth it was opened at, and a function's body with its own counter |
| `BlockLaws.JumpsBelongToLoops` | include/covscript/impl/compiler.hpp:320-332 | a break or continue in blocks nested in any way is accepted exactly when each block is closed by a line of its own and one of them is a `while`, `loop`, `for` or `foreach` with no function inside it around the jump |
| `BlockLaws.JumpInBlock` | include/covscript/impl/compiler.hpp:320-332 | in one block outside all loops: exactly for the four loops by name, `until` closing a `loop` only |
| `LoopCheck.CheckIsLoopSafe` | sources/compiler/codegen.cpp:685-698 | on properly closed blocks the check accepts exactly the statements whose breaks and continues all lie inside loops |
| `LoopCheck.AcceptedNeverEscapes` | sources/compiler/codegen.cpp:685-698 | no run of the statements written in accepted lines ends by a break or continue, before lowering |
| `LoopCheck.AcceptedFunctionIsSafe` | sources/compiler/codegen.cpp:744-792 | the body written for an accepted function keeps its breaks and continues inside its own loops, wherever the function stands, before lowering |
| `LoopCheck.GeneratedIsSafe` | sources/compiler/codegen.cpp:571-599 | the program generated from accepted lines, functions included, keeps every break and continue inside a loop if and only if lowering strands none |
| `LoopCheck.RunProgram` | sources/instance/statement.cpp:351-372 | accepted lines, lowered and run by the machine, never leave a break or continue flag set, and end as the generated program says and, where no loop that becomes a block has a break of its own outside dropped code, as the written one says |
| `Brackets.ProcessEmptyBrackets` | sources/compiler/lexer.cpp:626-726 | succeeds exactly on a non-empty, well-matched buffer and joins each bracket pair with nothing between |
| `Brackets.ProcessBrackets` | sources/compiler/lexer.cpp:728-828 | the recursive pass computes the grouping function and fails exactly when it does; it terminates on the token count |
| `BracketTheorems.CollapseKeepsStack` | sources/compiler/lexer.cpp:626-726 | joining empty pairs changes no matching, so the second pass never meets a mismatch the first one did not |
| `GroupShapes.CollapseExpands` | sources/compiler/lexer.cpp:626-726 | a joined pair stands for the two brackets it was made from |
| `BracketTheorems.GroupsSpellTheBuffer` | sources/compiler/lexer.cpp:728-828 | writing the nested groups out gives the buffer with its empty pairs joined |
| `BracketTheorems.ProcessAccepts` | sources/compiler/lexer.cpp:626-828 | exact acceptance: not empty, matched, and no empty comma part inside brackets, at any depth |
| `GroupShapes.ProcessSettles` | sources/compiler/lexer.cpp:728-828 | no bracket is left on its own at any depth, and every comma inside brackets has become the border of two segments |
| `SignalSplit.CharactersAreEntries` | sources/compiler/compiler.cpp:430-432 | the operator characters are exactly the one-character entries |
| `SignalSplit.OnlyErrors` | sources/compiler/compiler.cpp:308-352 | the only error spellings are a single vertical bar and `..` |
| `SignalSplit.EntriesArePrefixClosed` | sources/compiler/compiler.cpp:308-352 | every non-empty prefix of an entry is an entry |
| `SignalSplit.LongestIsLongest` | sources/compiler/compiler.cpp:308-352 | the piece taken is an entry and no longer prefix of the text is one |
| `SignalSplit.PiecesSpellTheText` | sources/compiler/lexer.cpp:325-354 | the pieces put together are the text and each is an entry |
| `SignalSplit.SplitSignals` | sources/compiler/lexer.cpp:325-354 | the one-pass loop yields the leftmost-longest pieces and fails exactly when one of them is an error signal |
| `SignalSplit.TokensSpellTheText` | sources/compiler/lexer.cpp:325-354 | the spellings of the tokens, in order, are the text |
| `SignalSplit.SplitUndoesSpell` | sources/compiler/lexer.cpp:399-415 | writing tokens without spaces and splitting again gives them back if and only if no token can take the next one's first character |
| `Storage.Domain.AddVar` | include/covscript/core/core.hpp:1016-1027 | binds or rebinds one name; other names keep slot and value; the name table stays a bijection onto the slots |
| `Storage.Domain.AddVarById` | include/covscript/core/core.hpp:1029-1049 | the same by identifier, through the cached slot, with the cache right afterwards |
| `Storage.Domain.RefusalsDiffer` | include/covscript/core/core.hpp:1051-1099 | definition by identifier is refused exactly when definition by name is and the cache points here |
| `Storage.Domain.AddVarOptimal` | include/covscript/core/core.hpp:1051-1075 | rebinding is refused exactly on a bound name without override or the round flag |
| `Storage.Domain.AddVarOptimalById` | include/covscript/core/core.hpp:1077-1099 | the same by identifier, judged by the cache |
| `Storage.Domain.GetVarById` | include/covscript/core/core.hpp:1101-1109 | reads the cell the name stands for, or fails exactly on an unbound name and leaves the cache alone |
| `Storage.Domain.Clear` | include/covscript/core/core.hpp:1527-1534 | empties the domain under a new identity, so no cache matches it |
| `Storage.Domain.SafeRewind` | include/covscript/core/core.hpp:1538-1553 | empties it slot by slot from the last under an identity that is new from the start |
| `Storage.Domain.PopSlot` | include/covscript/core/core.hpp:1546-1551 | each step takes out the last slot with its name and leaves a bijection, which is what code run by a destructor sees |
| `Storage.Domain.ReverseIndex` | include/covscript/core/core.hpp:1541-1545 | the index built from the name table gives for each slot its name |
| `Storage.Domain.Copy` | include/covscript/core/core.hpp:967-968 | a copy has the same bindings and an identity of its own |
| `Storage.Domain.Move` | include/covscript/core/core.hpp:970-975 | moving takes the bindings under a new identity and without the `optimize` flag, and leaves an empty table behind |
| `Storage.Domain.MoveAssign` | include/covscript/core/core.hpp:977-985 | the tables change places; both identities and both `optimize` flags stay |
| `Storage.Domain.MoveAssignUnderCache` | include/covscript/core/core.hpp:977-985 | a cache that points here is right after the exchange if and only if the other table has its name in the same slot |
| `DomainManager.Manager.GetVarByName` | include/covscript/impl/runtime.hpp:254-272 | the innermost-first scan over the fiber stack and the main stack |
| `DomainManager.Manager.PlaceIsInnermost` | include/covscript/impl/runtime.hpp:274-290 | with coherent caches the place a lookup ends at is the innermost one exactly when the cache skips none |
| `DomainManager.Manager.GetVarById` | include/covscript/impl/runtime.hpp:274-290 | in bounds; succeeds exactly when the name is bound in scope; gives a cell of that name; equals the fresh scan exactly when the cache skips none; a miss changes nothing; all caches stay coherent |
| `DomainManager.Manager.AddDomain` | include/covscript/impl/runtime.hpp:155-161 | a new innermost scope; the others keep their bindings even when the stack's block is reallocated; caches stay coherent |
| `DomainManager.Manager.RemoveDomain` | include/covscript/impl/runtime.hpp:199-211 | the innermost scope is gone and no cache can reach it; caches stay coherent |
| `DomainManager.Manager.AddVar` | include/covscript/impl/runtime.hpp:361-374 | one binding of the innermost scope changes or is refused; caches stay coherent |
| `DomainManager.Manager.AddVarById` | include/covscript/impl/runtime.hpp:361-374 | the same by identifier |
| `DomainManager.Manager.AddRecord` | include/covscript/impl/runtime.hpp:328-335 | a name is recorded once per scope |
| `DomainManager.Manager.Reverse` | include/covscript/impl/runtime.hpp:478-480 | turning the copies round in place by moves puts the tables in opposite order and keeps the identities |
| `DomainManager.Manager.CreateSnapshot` | include/covscript/impl/runtime.hpp:473-485 | new domains with the present bindings and the record sets, outermost first, and no cache points at one of them |
| `DomainManager.Manager.RestoreSnapshot` | include/covscript/impl/runtime.hpp:487-497 | the recorded bindings and sets are back in order, in domains no cache matches; caches stay coherent |
| `Transactions.StorageTransaction.Rollback` | include/covscript/impl/runtime.hpp:538-555 | puts the snapshot back once; after commit, discard or rollback it does nothing |
| `Transactions.Perform` | include/covscript/impl/runtime.hpp:116-497 | each operation on scopes, names, by name and by identifier, and records does what it says, and keeps every cache coherent |
| `Transactions.SwitchFiber` | sources/system/unix/common.cpp:415-429 | a fiber switch parks the stack in use and takes up an empty one, a parked one or none; no domain is ever on two stacks and caches stay coherent with all of them |
| `Transactions.Transact` | include/covscript/impl/runtime.hpp:467-556 | inside others a transaction takes a snapshot, drops it or puts it back, and the ones around it keep theirs |
| `Transactions.Run` | include/covscript/impl/runtime.hpp:116-497 | caches, of new identifiers too, are coherent with every live domain after any sequence of operations, fiber switches and nested transactions |
| `Transactions.Undone` | include/covscript/impl/runtime.hpp:467-556 | after any such sequence a rollback restores every scope's bindings and the record stack, and no cache, old or new, matches a restored domain |
| `Transactions.CacheSkipsLaterBinding` | include/covscript/impl/runtime.hpp:284-288 | a run in which lookup by identifier and by name find different scopes |
| `Transactions.IdentifierRebinds` | include/covscript/core/core.hpp:1051-1099 | a run in which definition by name is refused and the same definition by identifier rebinds the name |
| `FunctionStore.StepKeepsValid` | include/covscript/impl/runtime.hpp:36-101 | open transactions own disjoint sets of live slots after every operation |
| `FunctionStore.RollbackIsExact` | include/covscript/impl/runtime.hpp:86-101 | rollback empties exactly the slots of the innermost transaction; reclaiming removes no other |
| `FunctionStore.AddTakesAFreeIndex` | include/covscript/impl/runtime.hpp:50-68 | the index given out is of no live slot and of no open transaction |
| `FunctionStore.CommitMakesCommitted` | include/covscript/impl/runtime.hpp:80-84 | committing takes the slots out of reach of every enclosing rollback |
| `FunctionStore.CommittedForever` | include/covscript/impl/runtime.hpp:36-114 | a committed index keeps its entry through any later run |
| `FunctionStore.RolledBack` | include/covscript/impl/runtime.hpp:75-101 | a rolled-back transaction loses nothing from before it, and leaves nothing behind when every commit inside it closes a transaction that added nothing |
| `FunctionStore.RolledBackExactly` | include/covscript/impl/runtime.hpp:75-101 | the store is what it was, up to empty slots at the end, if and only if every commit inside the transaction closes one that added nothing of its own |
| `FunctionStore.Functions.RollbackTransaction` | include/covscript/impl/runtime.hpp:86-101 | the two loops do what the step says |
| `FunctionStore.Functions.AddLambda` | include/covscript/impl/runtime.hpp:61-68 | the index returned is new and holds the callable |
| `Fibers.StepKeepsValid` | sources/system/unix/common.cpp:365-556 | every step keeps chain, contexts, waiting resume calls and running states in agreement |
| `Fibers.ReachableStates` | sources/system/unix/common.cpp:340-556 | in every reachable state the chain has no repetition and holds exactly the running fibers; code, process and domain stack are the innermost one's |
| `Fibers.LeaveReturnsBelow` | sources/system/unix/common.cpp:521-535 | control comes back to the context below, to the resume call made for this fiber, with its exception |
| `Fibers.CreateAdds` | sources/system/unix/common.cpp:450-453 | a new fiber is ready, belongs to the process it was given, and changes nothing else |
| `Fibers.ResumeStarts` | sources/system/unix/common.cpp:460-536 | a fiber that may run becomes the innermost one, with its own process and stack in use |
| `Fibers.StopsAs` | sources/system/unix/common.cpp:515-556 | a fiber stops suspended, asleep until that many milliseconds have passed, or finished, and what it threw is what the resume call below sees |
| `Fibers.FinishedIsFinal` | sources/system/unix/common.cpp:460-467 | nothing changes a finished fiber any more |
| `Fibers.SleeperSleepsOn` | sources/system/unix/common.cpp:477-512 | until its wake-up time nothing happens to a sleeping fiber |
| `Fibers.ResumeReturns` | sources/system/unix/common.cpp:460-536 | when a resume call returns, after any run, it is to its caller with chain, process and domain stack as at the call |
| `Fibers.EachExceptionReachesOneResume` | sources/system/unix/common.cpp:365-382 | the exceptions delivered are those raised, in order, and a fiber raises at most one |
| `FiberRuntime.FiberContext.Resume` | sources/system/unix/common.cpp:460-536 | the method changes fiber, chain, process and domain stack as the step says, for every state and back-off decision |
| `FiberRuntime.FiberContext.Yield` | sources/system/unix/common.cpp:538-545 | yield is the step, and an error outside a fiber |
| `FiberRuntime.FiberContext.SleepFor` | sources/system/unix/common.cpp:547-556 | sleep is the step, and an error outside a fiber |
| `FiberRuntime.FiberContext.Finish` | sources/system/unix/common.cpp:365-382 | the end of a fiber's function is the step |

## Left out

- Grammar keyword matching, module import, character sets, compiled symbol files, the REPL and the debugger: wide and shallow.
- `kill_brackets`, and in `trim_expr` comma lists, `this` deduction, declarations, arrays and lambdas; its merging of groups, its operand checks and its unary operators are modelled.
- Folding of calls, member access, arrays, string literals and pairs in `opt_expr`, and increment, decrement, link assignment and lambdas in the evaluator: they depend on host functions and object aliasing.
- switch, foreach, struct, namespace and import statements; the rounds of foreach follow those of for.
- Struct finalizers and event polling, which run arbitrary code at scope exit.
- Reference counts, token arenas, deletion of statements and tree nodes: memory management only.
- Rounding of floating-point results: arithmetic on floats is a parameter, -0.0 and 0.0 are one value.
- An empty parenthesised group reaches an undefined branch of `build_tree`; the model treats it as an error.
- Operator levels are looked up when a token is made, not at each comparison; an unknown level is still an error only where the original asks for it.
- `StatementMachine.Instance.Run`: a function call is a statement of its own that defines a variable, not part of an expression, and switch, foreach and struct are absent. Redefinition errors of variables and the `optimize` flag are modelled in `Storage`, not here; a definition in the statement machine always rebinds.
- `StatementMachine.Instance.RunCall`: the same; a call made while an operand is being evaluated is not modelled.
- `TreeBuilder.GenTree`: the closing passes leave operators outside the scalar fragment alone.
- `ExpressionCompiler.CompileExpression`: the meaning is claimed for expressions of the scalar fragment in which no `-` or `*` has a left operand that may come down to an empty branch of a conditional; with one it can change (`EmptyBranches.EmptyBranchChangesMeaning`).
- `ExpressionCompiler.CompiledMeans`: the same.
- `TreeHeap.TreeType.Copy`: a token holds the tree it was made from as a value; copying into new nodes is `TreeHeap.TreeType.CopyOf`.
- `OptimizerHeap.OptExpr`: operators outside the scalar fragment are left alone, where the original folds some and rejects others.
- `OptimizerHeap.OptimizeExpression`: operators outside the scalar fragment are left alone by both passes.
- `TrimmerHeap.TrimExpr`: the same; the original rewrites or rejects some of them.
- `ProgramOptimizer.Same`: arguments that do not stay in place are left out of the claim for whole programs; what happens to each of them is `ProgramOptimizer.FoldedArgument`.
- `Ranges.RangeIterator.Advance`: integer start, stop and step only; the branch that adds floats is not modelled.
- `LoopCheck.RunProgram`: a statement is tied to its lines by its kind; names, conditions and operands come from the expression parser.
- `Translator.Compiler.Translate`: lines come with their statement kind; what the grammar makes of the tokens is not modelled, nor the declarations a preprocessing step records.
- `Lowering.LoweringPreservesMeaning`: a constant condition that is no boolean is a compile error in the original; here such a statement is left as it is.
- `Storage.Domain.Coherent`: renaming an identifier after it was cached (`set_id`) would break it; nothing in the repository does so.
- The back-off arithmetic of resuming a sleeping fiber: its decision to wait, and how long, is an argument.
- Native fibers, thread sleeps and machine context switches: a switch is a step, time is a number that does not decrease.
