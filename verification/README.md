# MiniOB, modelled and proved in Dafny

MiniOB is a small SQL database. This project models its query optimizer and iterator executor, its
concurrency primitives, its buffered network writer, two heap structures, its calendar and MD5 code, and
its grouping and vectorised filtering, and proves what each of them is for. `dafny verify dfyconfig.toml`
checks everything.

## The parts

**Query optimizer** (`Common`, `Expressions`, `ValueMeaning`, `Streams`, `LogicalPlan`, `ExpressionRewrite`,
`PlanRewrite`, `GeneratedPlans`, `OptimizedPlans`, `QueryMeaning`). A row is a sequence of cells; a plan stands for a
stream: rows in order and the code that ended it. Expressions evaluate to a value or an error code;
`ValueMeaning` says what comparing, calculating and looking up means without the functions that do it. The
rules are methods with the loops of the source, each proved against a function, and the properties are
proved about the functions. The rewrite loop ends on every plan because a reported change always lowers the
number of operators plus expression nodes. From a generated plan the whole run has a closed form
(`OptimizedPlans.GeneratedRun`), from which preservation, its exact condition for whole statements, the
absence of overwritten predicates, the final shape and its stability follow.

**Executor** (`PhysicalPlan`, `Executor`, `JoinOrder`, `StatementMeaning`, `Query`). `StatementMeaning` says which rows a
SELECT and a DELETE ask for, combination by combination and condition by condition, with no plan in it; `Query` runs a
statement to the end and compares. Compilation gives a physical plan; the
iterators are objects of one class `Iterator` with the fields of the source's operators and a footprint of
their own. What is still to come is part of the state, so that every `Next` is proved to show the first
pending row and remove it. An index is any sequence of entries that holds exactly its table's rows, each
marked visible or not; a lookup returns the entries whose cell equals the value.

**Concurrency** (`RecursiveSharedMutex`, `LockTrace`, `LockTraceRuns`, `LockTraceDeadlocks`, `ThreadPool`,
`ThreadPoolDrain`, `ThreadPoolGrowth`, `Numbers`). The lock, the tracing macros and the pool are transition systems whose steps are the critical
sections and atomic accesses of the source, interleaved in every possible way (the lock with spurious
wake-ups). The invariant of each is kept by every step; safety holds over every run. The lock is also a class
over its two condition variables whose methods are those steps. `LockTrace` holds the tables, the deadlock
check and what one call does to them; in `LockTraceRuns` taking or giving a mutex and updating the tables are
separate steps, as in the macros. `LockTraceDeadlocks` says what a report means for the threads themselves, and
which of their deadlocks are reported; a try-lock counts as waiting until it fails. `ThreadPoolDrain` says of
every reachable state whether a task can still be left behind, `ThreadPoolGrowth` when the pool gets another thread.

**Buffered writer** (`RingBuffer`, `BufferedWriter`). Classes over an array. The descriptor behind the writer
answers each write with any number of bytes, an interruption, a full queue or an error, as an unknown
but fixed sequence of answers; loops are proved to end when retries do not go on for ever.

**Heap structures** (`LruHistory`, `LruCache`, `MemPool`). The cache is a doubly linked list of node objects
with a hash index; its specification is a list of entries, and an account of the call history says
independently what that list must be. The pool works on addresses; what malloc answers is a parameter.

**Arithmetic** (`Calendar`, `DateTime`, `Md5`). Division truncates as in C. The MD5 block transform is a
parameter; everything around it is modelled with the 32-bit count words and the 32-bit loop index.

**Grouping and vectors** (`Grouping`, `GroupSums`, `HashGroupBy`, `VectorCompare`, `VectorScan`). Fast or
stateful forms against a plain specification.

## Where the code does not do what it is meant to

- The conjunction rule answers with the first child left instead of the constant it found
  (`src/observer/sql/optimizer/conjunction_simplification_rule.cpp:57`), so `f = 1 AND 1 = 2` becomes
  `f = 1`. The model follows the code; `QueryMeaning.OverlookedExample` is the counterexample, and
  `QueryMeaning.SelectExact` and `QueryMeaning.DeleteExact` say exactly when a statement keeps its rows,
  `Query.ExecuteSelect` and `Query.ExecuteDelete` the same for what running it yields.
- A grouped SELECT with a constantly false condition, and none on a column before it, loses the input of its grouping operator; the physical
  generator asserts that there is one and then reads it (`Query.GroupingLosesChildExactly`,
  `Query.GroupingWithoutChild`).
- An OR whose children are all erased evaluates to true. The generator builds only AND.
- Erasing a conjunct is not reported as a change, so the loop may stop after a pass that did edit the tree. A
  generated plan ends in a fixpoint all the same (`OptimizedPlans.GeneratedRunIsStable`);
  `OptimizedPlans.LoopStopsEarly` is a plan that does not.
- Shutdown followed by `await_termination` can leave an accepted task behind with no thread to run it: exactly
  while an execute is between its check and its push, or while tasks are queued and no core thread is in its
  loop; a running pool can always get there (`ThreadPoolDrain.EveryRunStrandsExactly`,
  `ThreadPoolDrain.StrandedForGood`).
- A core thread that polls before `init` has set the pool running sees a pool that is not running and an empty queue, and
  leaves. `init` still counts it, so every pool can come to run with no thread (`ThreadPoolGrowth.EveryPoolCanRunEmpty`);
  the next execute then brings one (`ThreadPoolGrowth.EveryExecuteFindsAThread`).
- A thread that calls `lock_shared` while it holds the recursive lock exclusively, which the class comment does not
  forbid, waits for itself, and everybody else with it (`RecursiveSharedMutex.StuckForGood`,
  `RecursiveSharedMutex.ReaderPassesExactly`).
- The locking macros release a mutex before its table entry is erased
  (`deps/common/lang/mutex.h:187-190`). The next owner then finds the old entry, is not recorded, and the late
  erase removes the entry: whoever asks for that mutex gets no deadlock report (`LockTraceRuns.LateEraseForgets`,
  `LockTraceRuns.ForgottenIsMissed`). The tables stay consistent exactly along runs without such a clash
  (`LockTraceRuns.EveryRunExactly`).
- A try-lock that fails leaves its wait entry in the tables (`deps/common/lang/mutex.h:177-185`), so a deadlock can be
  reported where nobody is blocked (`LockTraceDeadlocks.StaleAlarm`). A reported cycle is a deadlock exactly if all its
  threads still wait (`LockTraceDeadlocks.ReportIsRealExactly`), and always without failed try-locks
  (`LockTraceDeadlocks.FreshReportIsReal`).
- Unlocking a recursive mutex erases its entry even if the thread goes on holding it; nobody who then asks for the mutex
  gets a report (`LockTraceDeadlocks.InnerUnlockForgets`, `LockTraceDeadlocks.HolderForgottenExactly`).
- `DateTime::operator+=` compares with `>` where a sum of exactly one day needs `>=`, and then leaves the time
  of day at 24:00. `add_duration_date_time` drops milliseconds.
- In `MD5Update` the loop index plus 63 wraps when bytes wait in the buffer and the input is within 64 bytes
  of 4 GiB; `Md5.HasRoom` is the exact condition.
- `writen` on a writer whose buffer has capacity 0 loops for ever: each round succeeds, takes nothing and changes
  nothing (`BufferedWriter.Writer.WriteNextUnbuffered`).
- `MemPoolItem::alloc` clears `sizeof(item_size)` bytes, not `item_size`: with items shorter than an int it writes
  outside the item (`MemPool.ClearingIsLocalExactly`). A failed `init` leaves the pool dynamic.
- Whether a column is grouped is decided up to the float tolerance, so a query expression may be accepted and still
  vary within its group (`GeneratedPlans.ToleranceMattersExactly`).
- A cycle through `mMaxBlockTids` or more other threads is given up. A shorter deadlock over plain mutexes is reported by
  the very check that completes it, in consistent tables (`LockTraceDeadlocks.PlainDeadlockIsCaughtExactly`).
- `read_pos` of a ring buffer of more than 2^30 bytes can leave 32 bits (`RingBuffer.ReadPosFitsExactly`).

## Model

| member | source | states |
|---|---|---|
| `Expressions.EvalConjunctsAppend` | src/observer/sql/expr/expression.cpp:256-283 | evaluating a longer child list is evaluating its first part and, only if that decided nothing, the rest: what lets predicates be split and merged |
| `Expressions.SameTypeComparable` | src/observer/sql/expr/expression.cpp:121-152 | two values of one type always have a comparison result; the assertions and reinterpreted bytes of the mixed cases are not reached |
| `Expressions.EvalErrorCode` | src/observer/sql/expr/expression.cpp:175-198 | a failing evaluation is never mistaken for success or for the end of a scan |
| `Expressions.EvalConjunctsErrorCode` | src/observer/sql/expr/expression.cpp:256-283 | the same for the short-circuit loop of a conjunction |
| `ValueMeaning.FindCellExact` | src/observer/sql/expr/tuple.h:211-440 | a column has the value of the first cell that is its own, left side of a join before the right, and NOTFOUND exactly if there is none |
| `ValueMeaning.CompareStringExact` | deps/common/lang/comparator.cpp:49-67 | the sign of the string comparison is the lexicographic order: below 0 if and only if the left is a proper prefix or smaller at the first place where they differ, above 0 the other way round, 0 exactly for equal strings |
| `ValueMeaning.CompareRealExact` | deps/common/lang/comparator.cpp:35-47 | the sign of the float comparison is the order up to the tolerance |
| `ValueMeaning.CompareIsRelated` | src/observer/sql/expr/expression.cpp:121-152 | a comparison of two values is true if and only if they stand in the operator's relation, left to right: integers exactly, strings lexicographically, floats up to the tolerance |
| `ValueMeaning.TruthIsNonZero` | src/observer/common/value.cpp:292-326 | a number is true if and only if it does not compare equal to zero or lies at the very edge of the tolerance, where the two tests differ |
| `ValueMeaning.AndIsAll` | src/observer/sql/expr/expression.cpp:256-283 | an AND is true if and only if every child is |
| `ValueMeaning.OrIsSome` | src/observer/sql/expr/expression.cpp:256-283 | where all children have values, an OR is true if and only if some child is, and otherwise false |
| `ValueMeaning.IntArithmetic` | src/observer/common/type/integer_type.cpp:29-45 | on integer operands ADD and MUL give the sum and the product, SUB the number that with the right operand gives the left; failure exactly if that number leaves 32 bits, where the C++ overflow is undefined |
| `ValueMeaning.RealArithmetic` | src/observer/common/type/float_type.cpp:28-54 | otherwise the operands count as real numbers, in order; DIV gives the number that times the right operand is the left, and the largest float if the right one is nearly 0 |
| `ValueMeaning.NoNumberFails` | src/observer/sql/expr/expression.cpp:318-440 | such a calculation has a result if and only if both operands are numbers or booleans |
| `Streams.ProjectRowExact` | src/observer/sql/expr/expression_tuple.h:34-42 | cell i of the projected row is the value of query expression i, and there are no other cells; without a value for some expression, the first that fails gives the error |
| `ExpressionRewrite.EraseNeutral` | src/observer/sql/optimizer/conjunction_simplification_rule.cpp:41-65 | the erase-while-iterating loop: without a deciding constant the children left are exactly those that are not neutral, and with one that is reported |
| `ExpressionRewrite.ApplyConjunctionRule` | src/observer/sql/optimizer/conjunction_simplification_rule.cpp:28-85 | the method computes the rule, including its answer `child_exprs.front()` and the change flag that erasing does not set |
| `ExpressionRewrite.SimplifyConjunction` | src/observer/sql/optimizer/conjunction_simplification_rule.cpp:28-85 | the rule never makes an expression bigger, and whenever it reports a change it makes it smaller |
| `ExpressionRewrite.FoldComparison` | src/observer/sql/optimizer/comparison_simplification_rule.cpp:19-38 | folding a constant comparison reports a change only together with a smaller expression |
| `ExpressionRewrite.ApplyRules` | src/observer/sql/optimizer/expression_rewriter.cpp:64-85 | one round of all rules on one expression never grows it, and shrinks it whenever it reports |
| `ExpressionRewrite.RewriteExprShrinks` | src/observer/sql/optimizer/expression_rewriter.cpp:64-147 | rewriting a whole expression never grows it and strictly shrinks it when a change is reported |
| `ExpressionRewrite.RewriteExpression` | src/observer/sql/optimizer/expression_rewriter.cpp:64-147 | the recursive rewriter with its early return after a reported change terminates and computes the specified rewriting and flag |
| `ExpressionRewrite.RewriteExpressionList` | src/observer/sql/optimizer/expression_rewriter.cpp:32-47 | the loop over an operator's expressions rewrites each in place and accumulates the flag |
| `PlanRewrite.RewritePlanExprsShrinks` | src/observer/sql/optimizer/expression_rewriter.cpp:28-62 | expression rewriting over an operator and all its children never raises the plan's weight, and lowers it when reported |
| `PlanRewrite.RewriteOperatorExpressions` | src/observer/sql/optimizer/expression_rewriter.cpp:28-62 | the recursion over operators and children computes that rewriting |
| `PlanRewrite.AbsorbShrinks` | src/observer/sql/optimizer/predicate_rewrite.cpp:18-58 | removing a constant predicate operator, or emptying its parent, never raises the weight and lowers it whenever it reports |
| `PlanRewrite.LeftShrinks` | src/observer/sql/optimizer/predicate_pushdown_rewriter.cpp:91-138 | what pushdown leaves behind is never bigger, and smaller whenever something was pushed |
| `PlanRewrite.GetExprsCanPushdown` | src/observer/sql/optimizer/predicate_pushdown_rewriter.cpp:91-138 | the moving loop: pushed conditions are appended in order, the others stay in order, and an OR is refused; nothing is lost or duplicated |
| `PlanRewrite.PushChildren` | src/observer/sql/optimizer/predicate_pushdown_rewriter.cpp:103-119 | the loop over a conjunction's children, erasing those that were pushed away |
| `PlanRewrite.OnlyOverwritesDiscard` | src/observer/sql/optimizer/predicate_pushdown_rewriter.cpp:38-61 | a pushdown step that does not overwrite leaves the scan what it held, followed by what was pushed |
| `PlanRewrite.PushShrinks` | src/observer/sql/optimizer/predicate_pushdown_rewriter.cpp:21-66 | pushing predicates into a table scan never raises the weight (pushed predicates do not count), and lowers it when reported |
| `PlanRewrite.PushdownPredicates` | src/observer/sql/optimizer/predicate_pushdown_rewriter.cpp:21-66 | the method computes the pushdown step, its error and its flag; the scan's predicates are overwritten as `set_predicates` does |
| `PlanRewrite.NextShrinks` | src/observer/sql/optimizer/rewriter.cpp:29-66 | one pass of all rules over the whole tree never raises the weight and strictly lowers it whenever it reports a change |
| `PlanRewrite.RewritePass` | src/observer/sql/optimizer/rewriter.cpp:29-66 | the pass over rules and children computes the specified pass: result, error and flag |
| `PlanRewrite.Optimize` | src/observer/sql/optimizer/optimize_stage.cpp:95-110 | the do-while loop terminates on every plan, whatever its shape, and ends with the specified plan or error |
| `GeneratedPlans.CreateFilter` | src/observer/sql/optimizer/logical_plan_generator.cpp:150-218 | WHERE becomes one predicate over the input that is true on a row if and only if, for every condition, the value of its left side stands in its relation to the value of its right side; UNSUPPORTED if and only if two sides differ in type |
| `GeneratedPlans.UnitMeans` | src/observer/sql/optimizer/logical_plan_generator.cpp:156-206 | the comparison built for one condition, column or constant on either side, is true if and only if the values its sides stand for are so related |
| `GeneratedPlans.CreateJoinTree` | src/observer/sql/optimizer/logical_plan_generator.cpp:96-108 | the loop over the tables builds the left-deep join tree |
| `GeneratedPlans.CreateSelectPlan` | src/observer/sql/optimizer/logical_plan_generator.cpp:89-356 | projection over grouping over the filter over the join tree, leaving out the absent levels (what this stands for is StatementMeaning.SelectDenotes); UNSUPPORTED for a condition that cannot be compared, and then INVALID_ARGUMENT exactly for a grouped statement that shows a column neither grouped nor aggregated |
| `GeneratedPlans.FindUnboundColumn` | src/observer/sql/optimizer/logical_plan_generator.cpp:296-334 | the search over the query expressions finds such a column exactly if there is one |
| `GeneratedPlans.SameExprExactly` | src/observer/sql/expr/expression.cpp:292-303 | without float constants an expression counts as another exactly if they are the same apart from column types, operator by operator |
| `GeneratedPlans.BoundIsDetermined` | src/observer/sql/optimizer/logical_plan_generator.cpp:281-349 | what the refusal is for: an accepted query expression has one value on all rows that agree on the grouping expressions and the aggregates |
| `GeneratedPlans.UnboundFieldDiffers` | src/observer/sql/optimizer/logical_plan_generator.cpp:296-334 | a column refused beside grouping columns does take two values within some group |
| `GeneratedPlans.ToleranceMattersExactly` | src/observer/sql/expr/expression.cpp:50-60 | the limit of that, as expressions are identified up to the float tolerance: a column times k, accepted for a key that is the column times k0, varies within some group if and only if k0 is 0 and k is not |
| `GeneratedPlans.CountsAsGroupedExactly` | src/observer/sql/expr/expression.cpp:50-60 | such an expression is accepted if and only if the two constants differ by no more than the tolerance |
| `GeneratedPlans.CreateDeletePlan` | src/observer/sql/optimizer/logical_plan_generator.cpp:238-262 | delete over the filter over the one scan; what it removes is StatementMeaning.DeleteDenotes |
| `OptimizedPlans.FoldConditions` | src/observer/sql/optimizer/comparison_simplification_rule.cpp:19-38 | after one pass over the conditions no comparison of two constants is left |
| `OptimizedPlans.SettleIsSettled` | src/observer/sql/optimizer/conjunction_simplification_rule.cpp:28-85 | the predicate the loop ends with has nothing left to fold, erase or replace |
| `OptimizedPlans.SettledIsStable` | src/observer/sql/optimizer/expression_rewriter.cpp:64-147 | no rule changes or reports anything on a settled predicate |
| `OptimizedPlans.SweepsAreSupported` | src/observer/sql/optimizer/predicate_pushdown_rewriter.cpp:91-101 | pushdown never meets an OR: not in a generated predicate, nor after the first sweep over it, nor in the settled form, so it never fails |
| `OptimizedPlans.GeneratedRun` | src/observer/sql/optimizer/optimize_stage.cpp:95-110 | the whole run from any generated plan with a condition has a closed form, succeeds, and no pass in it ever overwrites table predicates |
| `OptimizedPlans.UnconditionalRun` | src/observer/sql/optimizer/optimize_stage.cpp:95-110 | without a condition the run leaves the plan alone |
| `OptimizedPlans.GeneratedRunIsStable` | src/observer/sql/optimizer/optimize_stage.cpp:95-110 | what a generated run ends with is a fixpoint: another pass would change nothing and report nothing |
| `OptimizedPlans.LoopStopsEarly` | src/observer/sql/optimizer/conjunction_simplification_rule.cpp:41-82 | on other plans the loop can stop too early: one pass turns `AND(AND(f = 1), FALSE)` into `AND(f = 1)` without a report, and one more pass would change that again |
| `QueryMeaning.ConjunctionRuleExact` | src/observer/sql/optimizer/conjunction_simplification_rule.cpp:28-85 | the rule keeps a row's truth value if and only if it does not misjudge the row: a deciding constant behind another survivor, or an OR erased to nothing |
| `QueryMeaning.SettleMeans` | src/observer/sql/optimizer/conjunction_simplification_rule.cpp:41-82 | without an overlooked false constant the settled predicate holds on exactly the rows the AND holds on, errors included |
| `QueryMeaning.SettleOverlooked` | src/observer/sql/optimizer/conjunction_simplification_rule.cpp:57-61 | with one, the run ends with just the first column condition |
| `QueryMeaning.SettlesFalseExactly` | src/observer/sql/optimizer/conjunction_simplification_rule.cpp:41-82 | the run ends with FALSE if and only if some condition is constantly false and none before it mentions a column |
| `QueryMeaning.FinalBodyMeans` | src/observer/sql/optimizer/predicate_pushdown_rewriter.cpp:44-64 | predicates inside a scan select what the same predicates above it select; a false constant reads an empty input |
| `QueryMeaning.OptimizePreserves` | src/observer/sql/optimizer/optimize_stage.cpp:95-110 | on every database, the optimized plan stands for exactly the rows, order and end code of the generated one, unless a constant-false condition follows a column condition |
| `QueryMeaning.OptimizeExact` | src/observer/sql/optimizer/optimize_stage.cpp:95-110 | the filtered input is kept if and only if no false constant was overlooked, or no row satisfies the first column condition |
| `QueryMeaning.UppersEmptyIff` | src/observer/sql/operator/project_physical_operator.cpp:43-62 | through projections and groupings a query shows the empty result exactly if nothing, and no error, reaches them |
| `QueryMeaning.SelectExact` | src/observer/sql/optimizer/optimize_stage.cpp:70-110 | a SELECT, grouping included, whose conditions have values shows the same rows, order and end code after optimization if and only if no constant FALSE is overlooked or no row satisfies the condition kept in its place |
| `QueryMeaning.DeleteExact` | src/observer/sql/optimizer/optimize_stage.cpp:70-110 | a DELETE removes the same rows under exactly the same condition |
| `QueryMeaning.SelectPreserved` | src/observer/sql/optimizer/optimize_stage.cpp:70-110 | every SELECT, grouping included, keeps its rows under that condition; the run never overwrites predicates |
| `QueryMeaning.DeletePreserved` | src/observer/sql/optimizer/optimize_stage.cpp:70-110 | every DELETE removes the same rows |
| `QueryMeaning.OverlookedExample` | src/observer/sql/optimizer/conjunction_simplification_rule.cpp:57-61 | the counterexample: `f = 1 AND 1 = 2` returns a row after optimization and none before |
| `QueryMeaning.NoPredicateOverScanOnExit` | src/observer/sql/optimizer/predicate_pushdown_rewriter.cpp:52-64 | when the loop ends no predicate operator sits directly above a table scan |
| `PhysicalPlan.CreateScan` | src/observer/sql/optimizer/physical_plan_generator.cpp:124-193 | the loop that picks an index chooses the first equality of a column with a constant that has one, and otherwise a table scan |
| `PhysicalPlan.PassingRowMatches` | src/observer/sql/optimizer/physical_plan_generator.cpp:136-172 | a row that passes the predicates has the chosen value in the indexed column |
| `PhysicalPlan.LookupPasses` | src/observer/sql/operator/index_scan_physical_operator.cpp:66-103 | filtering what the index returns for the chosen value loses no row the predicates keep |
| `PhysicalPlan.CompiledExact` | src/observer/sql/optimizer/physical_plan_generator.cpp:49-96 | without an index the compiled plan yields exactly the logical stream: rows, order and end code |
| `PhysicalPlan.CompiledYields` | src/observer/sql/optimizer/physical_plan_generator.cpp:124-244 | with indexes it yields the same multiset of rows, for any index that holds exactly its table's rows |
| `PhysicalPlan.CompiledDeletes` | src/observer/sql/optimizer/physical_plan_generator.cpp:255-278 | a compiled delete collects exactly the rows the logical delete removes |
| `PhysicalPlan.FlatPermutation` | src/observer/sql/operator/join_physical_operator.cpp:87-133 | row-wise operators and nested loops over permuted inputs give permuted outputs |
| `Executor.Iterator.constructor` | src/observer/sql/optimizer/physical_plan_generator.cpp:49-96 | a tree of closed iterators with footprints of their own |
| `Executor.Iterator.Open` | src/observer/sql/operator/join_physical_operator.cpp:19-35 | opening a closed iterator, even again, makes it stand for the whole stream of its plan; delete collects its rows here |
| `Executor.Iterator.Next` | src/observer/sql/operator/predicate_physical_operator.cpp:36-60 | each next shows the first row still pending and removes it, or the code that ends the stream |
| `Executor.Iterator.NextTableScan` | src/observer/sql/operator/table_scan_physical_operator.cpp:31-54 | the scanner loop stops at the next row that passes the filter |
| `Executor.Iterator.NextIndexScan` | src/observer/sql/operator/index_scan_physical_operator.cpp:66-103 | the same over index entries, skipping those not visible |
| `Executor.Iterator.NextFilter` | src/observer/sql/operator/predicate_physical_operator.cpp:36-60 | the loop pulls from the child until the expression is true |
| `Executor.Iterator.NextProject` | src/observer/sql/operator/project_physical_operator.cpp:43-62 | one row of the child becomes one row with the value of query expression j in cell j; with no child, end of data at once |
| `Executor.Iterator.NextJoin` | src/observer/sql/operator/join_physical_operator.cpp:37-65 | the two-branch protocol over `round_done_` emits exactly the next left-major pair |
| `Executor.Iterator.ContinueRound` | src/observer/sql/operator/join_physical_operator.cpp:42-55 | within a round: the next right row, or the end of the round, or an error that is passed on |
| `Executor.Iterator.LeftNext` | src/observer/sql/operator/join_physical_operator.cpp:87-98 | advancing the left side |
| `Executor.Iterator.ReopenRight` | src/observer/sql/operator/join_physical_operator.cpp:100-116 | the right child is closed before it is opened again, so it is only ever opened while closed |
| `Executor.Iterator.NextRound` | src/observer/sql/operator/join_physical_operator.cpp:57-65 | a new round starts with the right side's whole stream |
| `Executor.Iterator.Close` | src/observer/sql/operator/join_physical_operator.cpp:67-83 | closing leaves every iterator of the tree closed and reusable |
| `Executor.Iterator.Drain` | src/observer/sql/operator/predicate_physical_operator.cpp:36-60 | draining returns all pending rows in order and the end code |
| `JoinOrder.ProductAt` | src/observer/sql/operator/join_physical_operator.cpp:37-133 | pairing two complete inputs puts left row i and right row j at place i * n + j, and nothing else anywhere |
| `Query.OptimizedSelect` | src/observer/sql/optimizer/optimize_stage.cpp:32-68 | where every expression has a value, overlooked constants or not, the optimized plan of an ungrouped SELECT meets no error in any operator |
| `Query.SelectCompiles` | src/observer/sql/optimizer/optimize_stage.cpp:32-68 | every ungrouped SELECT is optimized and compiled without an error, whatever its conditions, its rows and the indexes |
| `Query.DeleteCompiles` | src/observer/sql/optimizer/optimize_stage.cpp:32-68 | so is every DELETE |
| `Query.OptimizedDelete` | src/observer/sql/optimizer/optimize_stage.cpp:32-68 | where its conditions have values, the optimized plan of a DELETE meets no error in any operator |
| `Query.CreatePhysicalPlan` | src/observer/sql/optimizer/physical_plan_generator.cpp:49-96 | the recursive compilation computes the specified physical plan or its error |
| `Query.ExecuteSelect` | src/observer/sql/optimizer/optimize_stage.cpp:32-110 | generate, optimize, compile, open, drain, close: on sound indexes, where its expressions have values, an ungrouped SELECT runs to the end of data, and returns exactly the rows the statement asks for (one for each combination of table rows that satisfies the conditions), each as often, if and only if no constant FALSE is overlooked or no row satisfies the condition kept in its place |
| `Query.ExecuteDelete` | src/observer/sql/optimizer/optimize_stage.cpp:32-110 | a DELETE on sound indexes, where its conditions have values, hands exactly the table's rows that satisfy the conditions to the transaction, under exactly the same condition |
| `Query.GroupingLosesChildExactly` | src/observer/sql/optimizer/physical_plan_generator.cpp:337-364 | for a grouped SELECT the optimized grouping operator has no child, which the physical generator asserts and then reads, if and only if a condition is constantly false and none before it mentions a column |
| `Query.GroupingWithoutChild` | src/observer/sql/optimizer/physical_plan_generator.cpp:350-352 | such a statement: `SELECT SUM(f) FROM t WHERE 1 = 2` |
| `JoinOrder.JoinTreeAt` | src/observer/sql/optimizer/logical_plan_generator.cpp:96-108 | a left-deep tree of joins emits the n-way product: every combination of rows at the place its indices spell, and as many rows as combinations |
| `JoinOrder.EveryRankIsTaken` | src/observer/sql/operator/join_physical_operator.cpp:37-133 | every place in the product belongs to a combination |
| `JoinOrder.JoinSize` | src/observer/sql/operator/join_physical_operator.cpp:37-133 | the join has as many rows as there are combinations, also when there are none |
| `JoinOrder.JoinWithEmptyTable` | src/observer/sql/operator/join_physical_operator.cpp:100-116 | any empty table makes the join empty |
| `StatementMeaning.FilterMeans` | src/observer/sql/operator/predicate_physical_operator.cpp:36-60 | filtering keeps, in order, exactly the rows that satisfy every condition |
| `StatementMeaning.SelectDenotes` | src/observer/sql/optimizer/logical_plan_generator.cpp:89-148 | the plan of an ungrouped SELECT stands for one row for each combination of table rows that satisfies all its conditions, in the order of the join, cell j the value of query expression j |
| `StatementMeaning.AnswerIsUnique` | src/observer/sql/optimizer/logical_plan_generator.cpp:89-148 | no other sequence of rows is an answer to the statement |
| `StatementMeaning.RankInjective` | src/observer/sql/operator/join_physical_operator.cpp:37-133 | different combinations stand at different places of the join |
| `StatementMeaning.DeleteDenotes` | src/observer/sql/optimizer/logical_plan_generator.cpp:238-262 | the plan of a DELETE removes, in order, exactly the rows of its table that satisfy all its conditions |
| `StatementMeaning.SelectedAreUnique` | src/observer/sql/optimizer/logical_plan_generator.cpp:238-262 | which rows those are leaves nothing open |
| `RecursiveSharedMutex.StepKeepsInv` | deps/common/lang/mutex.cpp:376-433 | every critical section of every operation keeps counters true to who holds what, and loses no wake-up |
| `RecursiveSharedMutex.EveryRunIsSafe` | deps/common/lang/mutex.cpp:376-433 | in every interleaving: never a reader beside a writer or two writers, no reader parked while no writer holds, and a free lock with a parked writer has a woken one |
| `RecursiveSharedMutex.WriterIsRecursive` | deps/common/lang/mutex.cpp:404-433 | the owner locks again without waiting, unlocking undoes exactly that, and it stays owner until it unlocked as often as it locked |
| `RecursiveSharedMutex.WokenWriterAcquires` | deps/common/lang/mutex.cpp:404-417 | a woken writer that finds the lock free takes it |
| `RecursiveSharedMutex.ReaderPassesExactly` | deps/common/lang/mutex.cpp:376-383 | a thread that waits in lock_shared can still get in, if the others act in some way, if and only if the owner of the exclusive lock does not wait itself |
| `RecursiveSharedMutex.ReadUnderWriteParks` | deps/common/lang/mutex.cpp:376-383 | an owner that asks for the shared lock under its own exclusive one waits |
| `RecursiveSharedMutex.StuckForGood` | deps/common/lang/mutex.cpp:376-433 | then nothing ever moves again: in every run nobody gets or gives back anything and nobody stops waiting |
| `RecursiveSharedMutex.SharedMutex.WakeSpuriously` | deps/common/lang/mutex.cpp:380-380 | a condition variable may let any parked thread go; that is one of the protocol's steps |
| `RecursiveSharedMutex.SharedMutex.LockSharedTurn` | deps/common/lang/mutex.cpp:376-383 | one turn of lock_shared is the protocol's step: it takes the lock, or the caller is in the readers' condition variable |
| `RecursiveSharedMutex.SharedMutex.TryLockShared` | deps/common/lang/mutex.cpp:385-393 | succeeds exactly if no writer holds, and is the protocol's step |
| `RecursiveSharedMutex.SharedMutex.UnlockShared` | deps/common/lang/mutex.cpp:395-402 | gives the hold back; the last one takes a writer out of the writers' condition variable, and nobody else |
| `RecursiveSharedMutex.SharedMutex.LockTurn` | deps/common/lang/mutex.cpp:404-417 | one turn of lock acquires exactly if the caller then holds it, and otherwise puts the caller into the writers' condition variable |
| `RecursiveSharedMutex.SharedMutex.Unlock` | deps/common/lang/mutex.cpp:419-433 | the last unlock frees the lock, empties the readers' condition variable and takes one writer out of the other; the object stays in the state its history of critical sections leads to |
| `LockTrace.ChaseFinds` | deps/common/lang/mutex.cpp:65-91 | when the recursive chase answers yes there is a path of wait entries to the caller |
| `LockTrace.ChaseFollows` | deps/common/lang/mutex.cpp:65-91 | a path of wait entries short enough for the depth bound is followed to its end |
| `LockTrace.ReportIsSound` | deps/common/lang/mutex.cpp:93-125 | a report of deadlockCheck stands for a cycle of table entries through the caller |
| `LockTrace.CyclesAreReported` | deps/common/lang/mutex.cpp:93-125 | every cycle of entries through the caller with fewer than mMaxBlockTids other threads is reported, except locking a recursive mutex again |
| `LockTrace.LongCyclesAreMissed` | deps/common/lang/mutex.cpp:65-91 | with that many or more other threads it is not: the bound is exact |
| `LockTrace.CycleIsReportedExactly` | deps/common/lang/mutex.cpp:65-125 | a cycle of entries through the caller is reported if and only if it has fewer than mMaxBlockTids other threads, or is a second lock of a mutex that is not recursive |
| `LockTrace.RecordKeepsExactly` | deps/common/lang/mutex.cpp:170-197 | recording an owner keeps the tables consistent if and only if nobody else is recorded |
| `LockTrace.EraseKeepsExactly` | deps/common/lang/mutex.cpp:211-221 | erasing an owner keeps them consistent under exactly the same condition |
| `LockTrace.Tracer.Check` | deps/common/lang/mutex.cpp:93-168 | records the wait and answers as specified; consistent tables stay consistent |
| `LockTrace.Tracer.Lock` | deps/common/lang/mutex.cpp:170-197 | keeps an owner recorded before, clears the wait, and leaves consistent tables consistent exactly if that owner is nobody else |
| `LockTrace.Tracer.Unlock` | deps/common/lang/mutex.cpp:211-221 | erases the entry whoever it was for, and leaves consistent tables consistent exactly if it was for nobody else |
| `LockTraceRuns.StepKeepsInv` | deps/common/lang/mutex.h:166-196 | with acquiring, recording, releasing and erasing as separate steps of any number of threads, each step keeps what ties the tables to who holds what |
| `LockTraceRuns.StepKeepsTablesExactly` | deps/common/lang/mutex.cpp:170-221 | a step makes consistent tables inconsistent exactly if it records or erases a mutex that stands recorded for another thread |
| `LockTraceRuns.RecordClashesExactly` | deps/common/lang/mutex.h:187-190 | recording does so exactly if another thread has released that mutex and not erased it yet |
| `LockTraceRuns.PlainClashesExactly` | deps/common/lang/mutex.h:187-190 | for a mutex that is not recursive that is the only way: erasing never does it |
| `LockTraceRuns.QuietTablesAgree` | deps/common/lang/mutex.cpp:170-221 | whenever no mutex is held and no erase is outstanding the tables are consistent again, whatever happened before |
| `LockTraceRuns.HeldExactly` | deps/common/lang/mutex.h:166-196 | over every run, a thread holds a mutex, recursive or not, if and only if it took it more often than it gave it back |
| `LockTraceRuns.EveryRunExactly` | deps/common/lang/mutex.h:166-196 | over every run the tables stay consistent if and only if no such step occurs, and quiet states are consistent |
| `LockTraceRuns.WaitNamesHolder` | deps/common/lang/mutex.cpp:65-91 | for a thread that is waiting for a plain mutex, consistent tables name exactly the thread that holds it, unless that thread is just between the mutex and its entry |
| `LockTraceRuns.LateEraseForgets` | deps/common/lang/mutex.h:187-190 | the race as a run: while one thread has released and not erased, and another has acquired, the holder can end up without an entry |
| `LockTraceRuns.ForgottenIsMissed` | deps/common/lang/mutex.cpp:93-125 | whoever asks for such a mutex gets no deadlock report, and the tables are inconsistent |
| `LockTraceRuns.AnyStateCanForget` | deps/common/lang/mutex.h:166-196 | from every state some run leads there, so no state is safe from it |
| `LockTraceDeadlocks.BlockedExactly` | deps/common/lang/mutex.h:166-175 | what being blocked means: a waiting thread may acquire if and only if nobody blocks it |
| `LockTraceDeadlocks.DeadlockStays` | deps/common/lang/mutex.h:166-185 | a deadlock of threads is for good, unless one of them gives up a try-lock |
| `LockTraceDeadlocks.EdgeIsRealExactly` | deps/common/lang/mutex.cpp:65-91 | a wait in consistent tables is a thread blocked by a holder if and only if the thread still waits and the owner has not let go |
| `LockTraceDeadlocks.ReportIsRealExactly` | deps/common/lang/mutex.cpp:93-125 | a reported cycle is a deadlock if and only if all its threads still wait |
| `LockTraceDeadlocks.StepStaysFreshExactly` | deps/common/lang/mutex.h:177-185 | a step leaves a stale wait entry behind if and only if it is a try-lock that fails |
| `LockTraceDeadlocks.FreshReportIsReal` | deps/common/lang/mutex.cpp:93-125 | without stale entries every report is a deadlock, recursive mutexes included |
| `LockTraceDeadlocks.PlainIsTraced` | deps/common/lang/mutex.cpp:170-197 | the mutexes of a deadlock that are not recursive are always recorded for their holders |
| `LockTraceDeadlocks.TracedIsReportedExactly` | deps/common/lang/mutex.cpp:65-125 | the check that completes a deadlock whose mutexes are all recorded reports it if and only if fewer than mMaxBlockTids others are in it, or it is a second lock |
| `LockTraceDeadlocks.DetectorIsExact` | deps/common/lang/mutex.cpp:93-125 | without stale entries the detector reports exactly the short deadlocks whose mutexes are all recorded |
| `LockTraceDeadlocks.DeadlockFormsAtCheck` | deps/common/lang/mutex.h:166-175 | a deadlock only ever comes about in a check of one of its threads |
| `LockTraceDeadlocks.PlainDeadlockIsCaughtExactly` | deps/common/lang/mutex.cpp:93-125 | so whenever one over plain mutexes comes about in consistent tables, that very step reports it if and only if it is short |
| `LockTraceDeadlocks.EveryCheckIsExact` | deps/common/lang/mutex.cpp:93-125 | after any run without a clash and without a failed try-lock the detector is exact in that sense |
| `LockTraceDeadlocks.StaleAlarm` | deps/common/lang/mutex.h:177-185 | the false alarm, as a run from an unused tracer without any clash: a report where nobody is blocked |
| `LockTraceDeadlocks.FailedTryAlarms` | deps/common/lang/mutex.h:177-185 | any two idle threads that each own a mutex can get there: one tries the other's mutex and fails, the other asks for its |
| `LockTraceDeadlocks.InnerUnlockForgets` | deps/common/lang/mutex.h:187-190 | the missed holder, as such a run: after locking a recursive mutex twice and unlocking it once it is held and in no table |
| `LockTraceDeadlocks.HolderForgottenExactly` | deps/common/lang/mutex.cpp:211-221 | a holder loses its entry while it goes on holding if and only if it erases it after an inner unlock |
| `ThreadPool.StepKeepsInv` | deps/common/thread/thread_pool_executor.cpp:54-218 | every atomic step of clients and pool threads keeps the invariant: lock exclusion, thread table, size limits, queue, hands and pending tasks |
| `ThreadPool.LookupSucceeds` | deps/common/thread/thread_pool_executor.cpp:125-130 | a thread that looks itself up under the lock is in the table: the return that would keep the lock is unreachable |
| `ThreadPool.TaskIsInOnePlace` | deps/common/thread/thread_pool_executor.cpp:89-102 | an accepted task is once in the queue, or held by exactly one thread, or done, and never two of these |
| `ThreadPool.EveryRunIsSafe` | deps/common/thread/thread_pool_executor.cpp:54-218 | in every interleaving: at most max_pool_size threads, no failed lookup, every accepted task in exactly one place, and each task completed at most once, exactly when it counts as done (when an execute brings a thread is ThreadPoolGrowth) |
| `ThreadPool.DoneMeansCompletedOnce` | deps/common/thread/thread_pool_executor.cpp:143-158 | over any run, a task is done at its end exactly if it was already or was completed once on the way |
| `ThreadPool.CountersStayRight` | deps/common/thread/thread_pool_executor.cpp:145-158 | task_count_ is the number of finished tasks and active_count_ the number of threads inside one, over every run |
| `ThreadPoolGrowth.ExecuteDecidesExactly` | deps/common/thread/thread_pool_executor.cpp:96-100 | with the queue's and the table's sizes read, execute asks for a thread if and only if the tasks queued and the threads inside a task together exceed the table |
| `ThreadPoolGrowth.ExtendNeedsRoom` | deps/common/thread/thread_pool_executor.cpp:204-211 | extend_thread gives up first if and only if the table is full |
| `ThreadPoolGrowth.ExtendDecidesExactly` | deps/common/thread/thread_pool_executor.cpp:212-217 | and then creates a thread if and only if fewer threads of the table are outside a task than it counted queued tasks |
| `ThreadPoolGrowth.ReturnHasSeen` | deps/common/thread/thread_pool_executor.cpp:89-102 | over every run, an execute that returned without a new thread has seen, since its push, a full table, or at three moments in turn no more tasks queued than threads of the table left over from those inside a task |
| `ThreadPoolGrowth.EmptyTableGrows` | deps/common/thread/thread_pool_executor.cpp:89-218 | an execute that pushed while the table was empty, and finds it empty all the way, returns only by entering a thread of its own |
| `ThreadPoolGrowth.EveryExecuteFindsAThread` | deps/common/thread/thread_pool_executor.cpp:89-218 | over every run of every pool, some moment between an execute's push and its return has a thread in the table |
| `ThreadPoolGrowth.StartsFullExactly` | deps/common/thread/thread_pool_executor.cpp:54-61 | the pool starts running exactly when the table has grown to core_pool_size |
| `ThreadPoolGrowth.EveryPoolStartsFull` | deps/common/thread/thread_pool_executor.cpp:32-63 | over every run from the start: when init returns, exactly core_pool_size threads are in the table, and all are core threads |
| `ThreadPoolGrowth.EveryPoolCanRunEmpty` | deps/common/thread/thread_pool_executor.cpp:54-170 | they need not stay: a core thread that polls before init is done sees a pool that is not running and leaves, so that every pool, with whatever sizes, can come to run without any thread |
| `ThreadPoolDrain.StepKeepsGuard` | deps/common/thread/thread_pool_executor.cpp:143-163 | while shutting down a looping core thread does not leave as long as tasks are queued, and nothing new is queued |
| `ThreadPoolDrain.EmptyTableMeansDrained` | deps/common/thread/thread_pool_executor.cpp:104-114 | what await_termination waits for then means that every accepted task is done |
| `ThreadPoolDrain.ShutdownDrains` | deps/common/thread/thread_pool_executor.cpp:73-114 | with a looping core thread and no execute in flight at shutdown, however the run goes on, an empty thread table means every accepted task is done |
| `ThreadPoolDrain.StrandedForGood` | deps/common/thread/thread_pool_executor.cpp:104-163 | what being left behind means: every execute has returned, no thread is in the table, a task is queued, and no step of anybody is possible any more |
| `ThreadPoolDrain.StrandsExactly` | deps/common/thread/thread_pool_executor.cpp:73-163 | while the pool shuts down, some way of going on leaves an accepted task behind with no thread left if and only if an execute is in flight, or tasks are queued and no core thread is left in its loop |
| `ThreadPoolDrain.RunningCanStrand` | deps/common/thread/thread_pool_executor.cpp:73-102 | a running pool always can: an execute may pass its check just before shutdown and push after the last thread left |
| `ThreadPoolDrain.NewCanStrand` | deps/common/thread/thread_pool_executor.cpp:22-71 | so can a pool that is still being initialized |
| `ThreadPoolDrain.EveryRunStrandsExactly` | deps/common/thread/thread_pool_executor.cpp:22-218 | for every pool and every reachable state: an accepted task can be left behind if and only if shutdown was not called yet, or an execute is in flight, or tasks are queued and no core thread is in its loop |
| `RingBuffer.ReadPos` | src/observer/net/ring_buffer.h:87-87 | the remainder formula is the place of the oldest byte, before or behind the write position |
| `RingBuffer.RingAt` | src/observer/net/ring_buffer.h:74-87 | byte i of the contents stands at (start + i) modulo the capacity |
| `RingBuffer.RingDrop` | src/observer/net/ring_buffer.cpp:67-80 | forgetting k bytes moves the start by k, around the end if need be |
| `RingBuffer.RingAppend` | src/observer/net/ring_buffer.cpp:93-103 | copying a chunk to where the contents end appends it, wrapped or not |
| `RingBuffer.ChunkFits` | src/observer/net/ring_buffer.cpp:95-103 | the stretch the code computes is free, lies within the array, and filling it does not move the oldest byte |
| `RingBuffer.ReadPosFitsExactly` | src/observer/net/ring_buffer.h:87-87 | the sums of read_pos stay within 32 bits in every state of a buffer if and only if its capacity is at most 2^30 |
| `RingBuffer.OtherSumsFit` | src/observer/net/ring_buffer.cpp:47-103 | the other sums do so at every capacity |
| `RingBuffer.RingBuffer.Buffer` | src/observer/net/ring_buffer.cpp:47-65 | the stretch handed out is a prefix of the contents, empty only if they are |
| `RingBuffer.RingBuffer.Forward` | src/observer/net/ring_buffer.cpp:67-80 | drops exactly that many bytes, or refuses and changes nothing |
| `RingBuffer.RingBuffer.Write` | src/observer/net/ring_buffer.cpp:82-106 | appends as many bytes as there is room for, in order; a negative size is refused |
| `RingBuffer.RingBuffer.Read` | src/observer/net/ring_buffer.cpp:27-45 | moves the oldest bytes, as many as fit, to the front of the caller's buffer and leaves the rest of both alone |
| `BufferedWriter.BytesMove` | src/observer/net/buffered_writer.cpp:122-123 | bytes that leave the front of the buffer and join what was sent leave the whole unchanged |
| `BufferedWriter.Writer.SendSome` | src/observer/net/buffered_writer.cpp:110-120 | the retry loop ends, with bytes sent or with a real error, whenever retries do not go on for ever |
| `BufferedWriter.Writer.FlushInternal` | src/observer/net/buffered_writer.cpp:93-128 | under any pattern of short, interrupted or failing writes sent bytes followed by buffered bytes stay the same; success means the buffer is empty or enough was sent; failure is reported exactly when a write failed; an empty buffer makes no call |
| `BufferedWriter.Writer.Write` | src/observer/net/buffered_writer.cpp:43-58 | the accepted bytes grow by exactly the reported prefix; a positive request makes progress exactly if the buffer has room for a byte at all |
| `BufferedWriter.Writer.WriteN` | src/observer/net/buffered_writer.cpp:60-80 | terminates, and either accepts all the bytes or reports an error after accepting a prefix |
| `BufferedWriter.Writer.WriteNextUnbuffered` | src/observer/net/buffered_writer.cpp:60-80 | at capacity 0 a round of writen succeeds, takes no byte and changes nothing, so the loop never ends |
| `BufferedWriter.Writer.Flush` | src/observer/net/buffered_writer.cpp:82-91 | a successful flush has sent everything accepted; a failing one loses nothing |
| `BufferedWriter.Writer.Close` | src/observer/net/buffered_writer.cpp:28-41 | closing sends everything or leaves the writer open; a second close does nothing |
| `LruHistory.HistoryLookup` | deps/common/lang/lru_cache.h:97-130 | after any sequence of put, get and remove, a key is found with the last value put and not removed since |
| `LruHistory.HistoryOrder` | deps/common/lang/lru_cache.h:97-130 | after any sequence the entries have different keys and stand in most-recently-used order, judged by when each key was last put or found |
| `LruHistory.WithoutAt` | deps/common/lang/lru_cache.h:199-217 | with different keys, removing a key removes the one entry that has it |
| `LruCache.IndexSize` | deps/common/lang/lru_cache.h:95-95 | the index has as many entries as the list has nodes |
| `LruCache.Cache.Get` | deps/common/lang/lru_cache.h:97-107 | finds what the list holds under the key and moves it to the front; list, links and index stay consistent |
| `LruCache.Cache.Put` | deps/common/lang/lru_cache.h:109-121 | overwrites in place and moves to the front, or links a new node there |
| `LruCache.Cache.Remove` | deps/common/lang/lru_cache.h:123-129 | unlinks the key's node from list and index, if there is one |
| `LruCache.Cache.LruTouch` | deps/common/lang/lru_cache.h:160-182 | relinking moves one node to the front and keeps the order of the others, in both directions |
| `LruCache.Cache.LruPush` | deps/common/lang/lru_cache.h:184-197 | links a new node before the front and enters it into the index |
| `LruCache.Cache.LruRemove` | deps/common/lang/lru_cache.h:199-217 | unlinks a node wherever it stands and drops it from the index |
| `LruCache.Cache.Foreach` | deps/common/lang/lru_cache.h:137-145 | following next_ from the front shows the entries most recently used first, up to where the callback stops |
| `LruCache.Cache.ForeachReverse` | deps/common/lang/lru_cache.h:147-155 | following prev_ from the tail shows exactly the reverse |
| `LruCache.Cache.Count` | deps/common/lang/lru_cache.h:95-95 | the index size is the number of entries |
| `LruCache.Replay` | deps/common/lang/lru_cache.h:97-217 | running any sequence of calls leaves the list the history specifies |
| `MemPool.ItemsNeverOverlap` | deps/common/mm/mem_pool.cpp:81-86 | two different items of the pool never share a byte |
| `MemPool.ExtendIsConsistent` | deps/common/mm/mem_pool.cpp:79-86 | the items of a new block are new, and listing them keeps used and free items disjoint, free of duplicates and exactly all slots |
| `MemPool.AllocIsConsistent` | deps/common/mm/mem_pool.cpp:112-115 | handing out the first free item keeps all that |
| `MemPool.FreeIsConsistent` | deps/common/mm/mem_pool.cpp:134-143 | taking an item back keeps all that |
| `MemPool.MemPoolItem.Init` | deps/common/mm/mem_pool.cpp:17-47 | refuses bad arguments, does nothing on a pool in use, cleans up after a failed extension (but stays dynamic), and otherwise lists every item of every block |
| `MemPool.MemPoolItem.Extend` | deps/common/mm/mem_pool.cpp:72-96 | one more block, or nothing when that is not allowed or malloc fails |
| `MemPool.MemPoolItem.Cleanup` | deps/common/mm/mem_pool.cpp:49-70 | nothing is left |
| `MemPool.MemPoolItem.Alloc` | deps/common/mm/mem_pool.cpp:98-120 | hands out the oldest free item, extending at need, and clears the size of an int; the item was not in use and shares no byte with any item that is |
| `MemPool.ClearingIsLocalExactly` | deps/common/mm/mem_pool.cpp:118-118 | the clearing stays inside the item's block and off every other item if and only if an item has room for an int |
| `MemPool.ClearingHitsNeighbour` | deps/common/mm/mem_pool.cpp:118-118 | a shorter item's clearing reaches the item behind it, which may be in use |
| `MemPool.MemPoolItem.Free` | deps/common/mm/mem_pool.cpp:130-146 | freeing an unknown or already freed item changes nothing |
| `MemPool.MemPoolItem.IsUsed` | deps/common/mm/mem_pool.h:369-375 | tells used items from free ones |
| `Calendar.MaxDayIsDaysInMonth` | deps/common/time/datetime.cpp:233-253 | the month length is the Gregorian calendar's, leap years included, also for years before 0 |
| `Calendar.MonthStep` | deps/common/time/datetime.h:232-238 | a day past the end of a month has the number of the matching day of the next month |
| `Calendar.NextDayIsNextNumber` | deps/common/time/datetime.h:232-238 | the next calendar day has the next day number |
| `Calendar.GetYmdInvertsJulianDate` | deps/common/time/datetime.h:241-252 | every date from 1 March of year -4800 on is found again from its number |
| `Calendar.JulianDateInvertsGetYmd` | deps/common/time/datetime.h:232-252 | every day number from there on is the number of the valid date get_ymd gives, which is that many days after the first |
| `Calendar.DaysLaterNumber` | deps/common/time/datetime.h:232-238 | n calendar days later the number is n more |
| `Calendar.GetYmdFits` | deps/common/time/datetime.h:241-252 | no intermediate value leaves 32 bits up to day 536838867, and the first product does from the next day on |
| `Calendar.JulianDateFits` | deps/common/time/datetime.h:232-238 | nor does any intermediate value of julian_date on those dates, term by term and sum by sum |
| `DateTime.HmsAddUp` | deps/common/time/datetime.h:109-116 | the parts get_hms gives are in range and make up the time |
| `DateTime.HmsFoundAgain` | deps/common/time/datetime.h:204-207 | get_hms finds the parts make_hms was given |
| `DateTime.MonthsLaterExact` | deps/common/time/datetime.cpp:177-209 | the date moved by months is that many next months on, on the last valid day there that is not past the day started from |
| `DateTime.CarryDays` | deps/common/time/datetime.cpp:211-227 | the carry loop ends on a valid date with the same Julian day |
| `DateTime.AddClock` | deps/common/time/datetime.cpp:180-198 | the carries of seconds, minutes and hours are the division of the total by a day |
| `DateTime.AddDate` | deps/common/time/datetime.cpp:172-229 | months first with the day clamped, then days: the number is the clamped date's plus days plus hour carry |
| `DateTime.DateTime.AddDuration` | deps/common/time/datetime.cpp:159-231 | adding any non-negative duration: Appendix E of W3C XML Schema Part 2, with milliseconds dropped |
| `DateTime.DurationLandsOn` | deps/common/time/datetime.cpp:228-228 | the date the result names is the moved start date that many calendar days later |
| `DateTime.DateTime.AddSeconds` | deps/common/time/datetime.h:170-185 | the instant moves by exactly the seconds; the time of day stays below a day except in exactly one case: a sum of exactly one day is left as 24:00 |
| `Md5.Encode` | deps/common/math/md5.cpp:329-339 | writes the words' bytes, low-order first, and nothing else |
| `Md5.Decode` | deps/common/math/md5.cpp:345-352 | finds the only words whose bytes these are |
| `Md5.FoldContinues` | deps/common/math/md5.cpp:170-205 | hashing more input is hashing it behind the bytes that wait |
| `Md5.CountAdds` | deps/common/math/md5.cpp:177-180 | the two count words, carry by comparison, add the bit length modulo 2^64 |
| `Md5.InitialBytes` | deps/common/math/md5.cpp:160-163 | the four words MD5Init loads, low-order byte first, are the sixteen bytes of section 3.3 of RFC 1321 |
| `Md5.WrapsWithoutRoom` | deps/common/math/md5.cpp:191-192 | `i + 63` wraps if and only if bytes wait and they and the input together reach 2^32; the index is then back at its start, so the loop never ends |
| `Md5.Context.Update` | deps/common/math/md5.cpp:170-205 | state, count and waiting bytes are those of the longer message, however it was cut |
| `Md5.Context.TransformBlocks` | deps/common/math/md5.cpp:191-192 | the loop folds exactly the whole blocks that lie in the input |
| `Md5.PaddingLength` | deps/common/math/md5.cpp:217-218 | the bytes taken from PADDING are those of section 3.1 of RFC 1321 |
| `Md5.Context.Final` | deps/common/math/md5.cpp:207-229 | the digest is that of the padded message with its length, sections 3.1 and 3.2 of RFC 1321, and the context is wiped |
| `Md5.PaddingIsInjective` | deps/common/math/md5.cpp:207-222 | different messages below 2^61 bytes are padded to different block sequences |
| `Md5.DigestOfPieces` | deps/common/math/md5.cpp:401-420 | any way of cutting a message into calls gives the digest of the whole |
| `GroupSums.CompareKeysExact` | src/observer/sql/expr/tuple.h:118-154 | on integer and string keys the comparison gives 0 exactly for equal keys |
| `GroupSums.DistinctAreDistinct` | src/observer/sql/operator/hash_group_by_physical_operator.cpp:145-176 | the reference list of keys has no duplicates and misses none |
| `GroupSums.SumsAddUp` | src/observer/sql/expr/aggregator.cpp:18-36 | the group sums add up to the sum over all the input |
| `GroupSums.AccumulateExact` | src/observer/sql/operator/group_by_physical_operator.cpp:46-72 | a row's numbers, integers or floats, join the running sums exactly if every integer sum fits, and every sum then is larger by the row's number |
| `GroupSums.AddRowExact` | src/observer/sql/operator/hash_group_by_physical_operator.cpp:46-72 | one more row turns the groups of the rows before into the groups of the rows with it |
| `GroupSums.GroupRowsExact` | src/observer/sql/operator/hash_group_by_physical_operator.cpp:29-100 | grouping succeeds if and only if no running integer sum overflows, and then gives one group for each different key, in first-appearance order, with its first row and the sums, integer or float, over exactly its rows |
| `GroupSums.GroupStreamExact` | src/observer/sql/operator/hash_group_by_physical_operator.cpp:29-124 | what a grouping shows: for each different key, in first-appearance order, the first row that has it, followed by one cell for each aggregate, in order, with the sum over that key's rows; or an error and no row if and only if some integer sum overflows |
| `HashGroupBy.GroupOperator.FindGroupOf` | src/observer/sql/operator/hash_group_by_physical_operator.cpp:126-179 | the first group whose key compares equal, or a new one at the end |
| `HashGroupBy.GroupOperator.Aggregate` | src/observer/sql/operator/group_by_physical_operator.cpp:46-72 | adds the row to the sums of that group and no other |
| `HashGroupBy.GroupOperator.Open` | src/observer/sql/operator/hash_group_by_physical_operator.cpp:29-89 | groups all of the child's rows, or reports the first failure |
| `HashGroupBy.GroupOperator.Next` | src/observer/sql/operator/hash_group_by_physical_operator.cpp:91-107 | hands out each group once, in order |
| `HashGroupBy.GroupOperator.Drain` | src/observer/sql/operator/hash_group_by_physical_operator.cpp:29-124 | opening and draining gives exactly the stream of the logical operator; on integer and string keys and numeric aggregates, for each different key its first row followed by its sums, or an error and no row if and only if some integer sum overflows |
| `VectorCompare.LaneExact` | src/observer/sql/expr/arithmetic_operator.hpp:20-117 | each operator's combination of the two instructions sets a lane exactly when the comparison holds |
| `VectorCompare.CompareScalar` | src/observer/sql/expr/arithmetic_operator.hpp:256-268 | the scalar loop masks each row with its comparison |
| `VectorCompare.CompareVector` | src/observer/sql/expr/arithmetic_operator.hpp:207-262 | eight lanes at a time with a scalar tail does the same, for every length |
| `VectorCompare.CompareResult` | src/observer/sql/expr/arithmetic_operator.hpp:343-374 | an operator that is none of the six leaves the selection alone |
| `VectorScan.TestIsEval` | src/observer/sql/expr/expression.cpp:200-249 | a row is masked with exactly what the tuple scan finds on it |
| `VectorScan.EvalPredicate` | src/observer/sql/expr/expression.cpp:200-249 | one predicate's column comparison keeps the selection vector true to the predicates so far |
| `VectorScan.Filter` | src/observer/sql/operator/table_scan_vec_physical_operator.cpp:75-85 | after all predicates a row is selected exactly if it passes them all |
| `VectorScan.Next` | src/observer/sql/operator/table_scan_vec_physical_operator.cpp:34-64 | the filtered chunk holds exactly the rows the tuple scan keeps, in order |
| `VectorScan.ScanAll` | src/observer/sql/operator/table_scan_vec_physical_operator.cpp:34-85 | the whole vectorised scan is the tuple scan, however the table is cut into chunks |

## Left out

- Sockets, server loops, communicators, command line, logging, signals, INSERT, EXPLAIN and CALC plans: input, output or no logic of their own.
- Parser, Stmt creation, Table, Index, Trx, Record, Column and Chunk storage: abstract specifications stand for them (a table is a sequence of rows).
- Grouping in the execution theorems: the grouping operators are not nodes of a physical plan here, so compiling a grouped SELECT ends with UNIMPLEMENTED, or with UNDEFINED where the source reads a missing child. The logical theorems include grouping, and `HashGroupBy` is the hashing operator on its own.
- PhysicalPlan.CompiledYields: a multiset of rows, not an order, because an index returns its rows in its own order; without an index the order is proved too.
- Executor.Iterator.NextProject: the projected row is read as soon as it is produced, and column headings are not modelled.
- Virtual operator classes: one class `Iterator` with a kind stands for them, because the methods only differ by kind. Logical operator and expression trees are owned by one parent, so they are values; moving a pointer is building the new tree.
- Expressions: casts that the generator never makes (every cost is 0 or the largest integer), negation, and floating point rounding (reals stand for floats, with the source's epsilon).
- Float keys and float column comparison: the epsilon comparison is not transitive, so agreement does not hold.
- Vectorised arithmetic and constant-against-constant column comparison: folded away before, or dependent on a Column count that is not part of this model.
- GroupSums.GroupRowsExact: integer and string keys, for the same reason; sums of integers and floats, not of types that have no addition.
- HashGroupBy.GroupOperator.Open: opening the same operator twice, which keeps the old groups, does not happen in a generated plan and is excluded.
- RecursiveSharedMutex: fairness. A woken writer can lose the lock to a reader again; only that a wake-up is never lost is proved. The plain SharedMutex and Mutex wrappers forward to the standard library.
- LockTrace.Tracer.Check: `check` writes mWaitLocks while it holds the map's lock only for reading (`deps/common/lang/mutex.cpp:161`), so two checks can run at once and race on the map; in the model each check is one step.
- LockTraceRuns: MUTEX_TRYLOCK and MUTEX_LOCK are one path that may fail or not; a failed attempt leaves its wait entry, as in the code. COND_WAIT, a mutex that fails to lock, and checkLockTimes, which only writes a log line, are not modelled; nor are file and line.
- ThreadPool.EveryRunIsSafe: thread identifiers are reused only once a thread is gone, and the test in execute reads the queue's size, the table's size and the active count in this order, though C++ leaves the order of the last two open. The counters are updated in one step with the end of their task. Nothing is said about time, so keep-alive is a step that may happen at any moment.
- RingBuffer and BufferedWriter: positions are unbounded integers, which is what the code computes up to a capacity of 2^30.
- MemPool: item offsets and sizes are unbounded integers, and of the item contents only which bytes alloc clears.
- BufferedWriter.Writer.WriteN: a buffer of capacity 0 is excluded, since the loop does not end there; what a round does then is `WriteNextUnbuffered`.
- LruCache: freeing a node is forgetting it; iterating while changing the cache is not modelled.
- DateTime.DateTime.AddDuration: unbounded integers, so nothing is said of a duration so large that its sums leave 32 bits; negative durations and the text of a duration are not modelled (truncating remainders of negative months are below 1).
- Md5: the round constants and the compression function; the transform is any function of state and block.
- LinearProbingAggregateHashTable: its resize and batch insertion are unfinished.
- GeneratedPlans.SameExpr: comparing two constants of types that cannot be compared stops the program with a failed assertion; the model calls them different. Aggregates stand in the query expressions as columns without a table.
- Bitmaps, serializers, CRC, string helpers, metrics and the INI loader: utilities of the storage, network-format and text layers, which lie outside the modelled components and are called by none of them.
