# Verified models of the gateway SDK

This project models, in Dafny, the parts of the SDK whose correctness does not
show in any single function: the lock-free message queue, the configuration
language (expressions, symbols, menus, saved files), the intrusive linked
lists, the byte ring buffer, the subword atomics and the CRC of the curtain
frames. `dafny verify dfyconfig.toml` checks everything.

## The message queue

`QueueModel` is a transition system. A state holds two rings over the same
`max_depth` blocks (the freelist, filled by free and drained by alloc, and the
queue, filled by write and drained by read), and for each thread a program
counter and the set of messages it owns. One step is one atomic operation, one
slot load, one slot store or one semaphore operation of one thread, so a run is
any interleaving of any number of threads. Ticket positions and the
blocked-reader counts are 32-bit words that wrap; the tickets kept as history
never wrap.

Memory is sequentially consistent. The two entry counts and the semaphore
values are unbounded integers, which is what the code's 32-bit counters are as
long as depth plus thread count stays below 2^31. Clients write and free only
messages they own.

Ownership and FIFO order hold in all runs exactly when each ring has one taking
thread or one putting thread (`sdk/module/message_queue/examples/www_server.c`
keeps to that pattern), or the depth is at most two, or at most two threads use
the queue, or the one thread allowed to allocate does not exist, so that nothing
happens. `QueueTwoSided.OwnershipExact` proves both directions. What the safe
cases have in common is the invariant `Parted`: of two untaken put tickets on
one slot, the earlier is stored, and the later is neither stored nor drawn by a
taker. In all other cases three threads suffice: one is stopped between reading
and clearing a slot, another waits to fill that slot, and the third puts a
message past it and is then led back to the slot.

Wake-ups are never lost on a ring exactly when one thread only takes from it
(`QueueSleepers.AwakeExact`, for rings that some thread can put a message into).
With two takers, the try of one that fails and has not yet restored the entry
count makes the other miss a message that is there, register when its writer has
already looked for sleepers, and sleep. The counter equations need no condition
at all, and neither does what `QueueCalls` says of single calls: a call that
returns has drawn one ticket and taken or delivered what belongs to it, or, if
it does not block, found nothing.

## The configuration language

Expressions are three-valued (n = 0, m = 1, y = 2). A symbol environment is
valid if the constants have their own values, boolean symbols are n or y, the
string of a boolean or tristate symbol is its letter, and different constants
have different strings; that is what symbol calculation guarantees.

The rewriting functions of `expr.c` are written as functions on values with the
code's branches. Where the code passes the same slot twice (`expr_eliminate_dups`
passes `&e, &e`), a slot is a path into one root, and what a call writes through
one path the other path sees. The expression modules whose names end in
`InPlace` do the rewriting on heap nodes, whose fields are overwritten as the
code overwrites them, and prove the result equal to the functions. For `expr_eliminate_dups`
a slot is then the address of a field, two slots may be the same, and
`KconfigCells` ties slots to paths: a picture of the group nodes and their
operands says which part of the heap a store through a slot changes.

Meaning is preserved by every rewrite except two. `expr_trans_bool` keeps only
the property "is n". The second pass of `expr_eliminate_dups` may turn m into n
or y, never y or n into anything else: `(a || n) && !a` with `a = m` is m and is
rewritten to `n`. On the expressions over a set of symbols it is exact if and
only if none of these symbols is m.

That the rewriting does its work is a matter of its own. `expr_eq` decides
equality up to order and grouping of operands (`KconfigSame`), if no operand is
a constant or a quoted name; two quoted operands are too much for it.
`expr_eliminate_dups` ends with expressions in which no rule applies and leaves
just these alone (`KconfigDupsClean`). What it makes of `e && e` is not always
what it makes of `e`: for a boolean `a`, `a && a!='m'` becomes `a='y'`, but
twice over it becomes `a='y' && a!='m'` (`KconfigDoubleLoss`). For an `e` that
it leaves alone, `KconfigDouble` gives the exact condition.

Symbol values are the solution of one equation per symbol. Without circular
dependencies there is exactly one solution, and the memoised, recursive
calculation of `sym_calc_value` stores it, whatever the order of the calls.
`KconfigRules` says what the values mean: prompts bound them from above, selects
from below, and between them the user or the first default decides.
Circular dependencies are what `sym_check_deps` reports: the search is proved
to report one exactly when there is one, and a search without a report leaves
behind the order of symbols that the other results start from;
`CheckAndCalculate` does the one after the other. Saving writes the solution,
reading it back makes every calculated value the user's own, and those are
values for which the same assignment is still the solution.
`conf_read` then counts as unsaved exactly the symbols that `conf_write` wrote
although they are neither visible nor selected nor defaulted, because the test
that would have skipped them is commented out; so a reload can report changes
although no value changed, and does for every symbol without prompt, default
and select.

String values come back from the file exactly when they hold no line feed. A
menu title is skipped by the reader exactly when it does not itself read like
`CONFIG_... is not set`.

`menu_finalize` is modelled on trees and on linked entries. Whether an entry
joins the one before it is decided by an arbitrary predicate, so the results
hold whatever the dependency expressions are. For each answer of that predicate
`MenuRules` says which tree comes out, and that it is the only one that obeys
the rules.

## Lists, ring buffer, atomics, CRC

`Klist` relates `next`/`prev` pointers to sequences; what a method may write is
in its `modifies` clause, so disjoint lists are untouched. `RingBuffer` works
for any number of elements that divides 2^32, which the powers of two do
(`Pow2.Pow2Divides`), from any positions, including those about to wrap.
`Atomics` lets others change the word between any two accesses. `Crc16` relates
the table-driven loop to the shift register of section 6.2.2 of the MODBUS over
Serial Line Specification and Implementation Guide V1.02.

The reply check for device queries in `doya_recv_package_handle` compares the
last two bytes with zero and never computes the CRC. The model keeps that;
`CurtainFrames.InfoCheckExact` says when such a check is right all the same.

## Model

| member | source | states |
|---|---|---|
| QueueSafety.EachBlockInOnePlace | sdk/module/message_queue/message_queue.c:147-220 | in every reachable state of every interleaving each of the `max_depth` blocks is in exactly one place: one freelist slot, one queue slot, or one thread's hands; on each ring one taker or one putter, or else a depth or a number of threads of at most two |
| QueueTwoSided.OwnershipExact | sdk/module/message_queue/message_queue.c:147-220 | no block is ever in two places, and messages never come out of order, exactly when each ring has one taker or one putter, or the depth or the number of threads is at most two, or the only thread that may allocate does not exist |
| QueueTwoSided.TwoSidedFails | sdk/module/message_queue/message_queue.c:147-190 | otherwise, at every depth and number of threads from three up, a run of three threads ends with one block in two threads' hands and a take that returns another ticket's message |
| QueueSafety.Fifo | sdk/module/message_queue/message_queue.c:192-220 | the message returned under the k-th read ticket is the one stored under the k-th write ticket, for all k and across wrap-around, and likewise for the freelist; no two live tickets of one kind are at one slot |
| QueueSafety.RunSafe | sdk/module/message_queue/message_queue.c:147-235 | the ownership invariant holds in every state of every run |
| QueueSafety.StepSafe | sdk/module/message_queue/message_queue.c:147-235 | one step of one thread, whichever it is, keeps the ownership invariant |
| QueueSafety.InitSafe | sdk/module/message_queue/message_queue.c:99-128 | the state set up by initialisation satisfies it |
| QueueSafety.TakeReads | sdk/module/message_queue/message_queue.c:150-156 | a taker that finds its slot full holds the message of its own ticket |
| QueueSafety.UntakenApart | sdk/module/message_queue/message_queue.c:178-184 | with one taker, put tickets that are not yet taken never meet on a slot, since at most `max_depth` of them exist |
| QueueSafety.PuttersApart | sdk/module/message_queue/message_queue.c:192-199 | two putters that are past their tickets are at different slots |
| QueueSafety.TakersApart | sdk/module/message_queue/message_queue.c:207-216 | two takers that hold tickets are at different slots |
| QueueCounters.RunCounters | sdk/module/message_queue/message_queue.c:147-235 | in every reachable state, without any condition on the threads: entries = puts - uncounted puts - takes - claims under way or being undone, and blocked_readers + semaphore + posts in flight = registered readers modulo 2^32 |
| QueueCounters.StepCounters | sdk/module/message_queue/message_queue.c:147-235 | every step keeps both counter equations |
| QueueWakeup.NoLostWakeup | sdk/module/message_queue/message_queue.c:222-235 | one reader asleep on a zero semaphore with no post in flight: either the ring has no entries or some writer is committed to waking it, and blocked_readers is 1 so that writer will post |
| QueueCalls.TakeReturns | sdk/module/message_queue/message_queue.c:207-235 | in any run, a call of read or alloc that returns has drawn just one ticket and brings back just what that ticket returned; one that does not block may instead return nothing, and then has drawn no ticket and found a count of at most 0 |
| QueueCalls.PutReturns | sdk/module/message_queue/message_queue.c:176-205 | a call of write or free that returns has drawn just one ticket, stored its message under it and given that message away |
| QueueSleepers.AwakeExact | sdk/module/message_queue/message_queue.c:192-235 | provided some thread may allocate and put what it got into the ring: a thread is never left asleep while an entry is there and no putter is at work, exactly when one thread only takes from the ring |
| QueueSleepers.TwoTakersForget | sdk/module/message_queue/message_queue.c:207-235 | with two takers a run ends with one of them asleep beside an entry and nobody about to wake it: the failed try of the other hid the entry |
| QueueWakeup.SleepsOnlyWhenEmpty | sdk/module/message_queue/message_queue.c:192-235 | once no writer is active, a sleeping reader has taken every message that was written |
| QueueWakeup.RefusedOnlyWhenEmpty | sdk/module/message_queue/message_queue.c:207-220 | when a sole reader tests the entry count, it is exactly the number of counted messages it has not taken |
| QueueWakeup.RunWatched | sdk/module/message_queue/message_queue.c:192-235 | the invariant behind it holds in every state of every run |
| QueueSafety.PutDraw | sdk/module/message_queue/message_queue.c:178-184 | when a put ticket is drawn, every earlier untaken ticket on its slot has been stored |
| QueueSafety.TakeDraw | sdk/module/message_queue/message_queue.c:150-154 | when a take ticket is drawn, no earlier untaken put ticket is on the slot of the put ticket with its number |
| Pow2.RoundToPow2 | sdk/module/message_queue/message_queue.c:54-63 | for 1 <= x <= 2^31 the result is the least power of two that is at least x |
| Pow2.RoundingFails | sdk/module/message_queue/message_queue.c:54-63 | the result is 0, no usable depth, exactly for 0 and for values over 2^31 |
| Pow2.NextSlot | sdk/module/message_queue/message_queue.c:149-149 | adding one to a wrapping 32-bit ticket counter moves on to the next slot at every value exactly when the depth divides 2^32 |
| Pow2.InitDepth | sdk/module/message_queue/message_queue.c:73-73 | the depth computed at initialisation is one for which the queue theorems hold |
| KconfigYn.EliminateYnValue | sdk/config/kconfig/expr.c:235-316 | dropping constant operands preserves the value in every valid environment |
| KconfigExpr.ValueLaws | sdk/config/kconfig/expr.c:942-1000 | the three-valued logic: NOT swaps y and n, AND and OR are dual, comparisons are decided by the strings |
| KconfigYn.EliminateYnNormal | sdk/config/kconfig/expr.c:235-316 | no AND or OR keeps a constant operand |
| KconfigYn.TransBoolKeepsNo | sdk/config/kconfig/expr.c:321-345 | on negation normal form, "the value is n" is unchanged in every environment |
| KconfigYn.TransBoolNeedsNnf | sdk/config/kconfig/expr.c:321-345 | without negation normal form it is not: a concrete expression |
| KconfigYn.TransBoolRemoves | sdk/config/kconfig/expr.c:321-345 | no test `s!=n` of a tristate symbol is left at any depth, and only expressions without one are left alone |
| KconfigYn.TransBoolExact | sdk/config/kconfig/expr.c:321-345 | where no tristate symbol is m every value is kept, below NOT too |
| KconfigYn.VisibilityUnchanged | sdk/config/kconfig/symbol.c:208-215 | so the visibility of a non-tristate symbol, after its promotion from m to y, is the same with the rewritten conditions |
| KconfigTransform.TransformValue | sdk/config/kconfig/expr.c:640-775 | `expr_transform` preserves the value in every valid environment |
| KconfigTransform.TransformNormal | sdk/config/kconfig/expr.c:640-775 | its result is in negation normal form, NOT only directly over a symbol that is no constant |
| KconfigTransform.NormalIsNnf | sdk/config/kconfig/expr.c:640-775 | that form is the one `expr_trans_bool` needs |
| KconfigTransform.TransformFixes | sdk/config/kconfig/expr.c:640-775 | an expression is left unchanged if and only if it has that form |
| KconfigTransform.TransformIdempotent | sdk/config/kconfig/expr.c:640-775 | transforming twice is transforming once; the recursion ends although De Morgan steps enlarge the tree |
| KconfigTransform.TransformOrder | sdk/config/kconfig/expr.c:640-775 | the symbols are tested in the same order as before |
| KconfigEq.ExprEqSound | sdk/config/kconfig/expr.c:193-233 | expressions called equal have the same value in every valid environment, although leaves were cancelled pairwise on copies; the mutual recursion ends |
| KconfigSame.ExprEqKeys | sdk/config/kconfig/expr.c:193-233 | on expressions without constant or quoted operands the comparison decides exactly whether they are the same up to order and grouping of the operands of AND and OR |
| KconfigSame.ExprEqReflexive | sdk/config/kconfig/expr.c:193-233 | so such an expression equals itself |
| KconfigSame.ExprEqReorders | sdk/config/kconfig/expr.c:193-233 | and operands may be exchanged and regrouped |
| KconfigSame.QuotedDiffer | sdk/config/kconfig/expr.c:146-148 | with two quoted operands an AND does not equal itself |
| KconfigSame.CancelCounts | sdk/config/kconfig/expr.c:135-166 | cancelling leaves of each operand as many as one side has more of than the other |
| KconfigSame.EliminateEqContains | sdk/config/kconfig/expr.c:168-188 | nothing is left of the second expression exactly when its operands are among those of the first, each as often |
| KconfigEq.CancelEqFactor | sdk/config/kconfig/expr.c:135-166 | pairwise cancelling takes one common factor out of both sides |
| KconfigEq.EliminateEqDominates | sdk/config/kconfig/expr.c:168-188 | if the second expression is reduced to y, the first one's original value never exceeds the second one's |
| KconfigEq.ExtractEqFactor | sdk/config/kconfig/expr.c:852-879 | what is moved to the common part is a factor of both expressions |
| KconfigEq.ExtractEqExact | sdk/config/kconfig/expr.c:830-879 | e1 = common op e1' and e2 = common op e2' exactly |
| KconfigJoin.JoinValue | sdk/config/kconfig/expr.c:350-506 | a joined pair of comparisons has the value of the pair, on all tristate values |
| KconfigJoin.JoinShape | sdk/config/kconfig/expr.c:350-506 | a joined operand is the first one again or a single node, so it fits the place of a leaf |
| KconfigJoin.ComparisonsJoin | sdk/config/kconfig/expr.c:380-490 | for comparisons of one tristate symbol with constants the joined operand is the one comparison that says the same |
| KconfigJoin.EqualityDecides | sdk/config/kconfig/expr.c:460-471 | `a=c && a!=d` is `a=c`, or n if c is d, for all constants, quoted ones included |
| KconfigJoin.SymbolJoins | sdk/config/kconfig/expr.c:400-475 | and likewise for a symbol with one of its comparisons or its negation |
| KconfigDupsValue.Dups1Value | sdk/config/kconfig/expr.c:508-558 | the first pass is exact on all tristate values, also when called on one and the same slot |
| KconfigDupsValue.Dups2Value | sdk/config/kconfig/expr.c:560-614 | the second pass never changes a value that was y or n |
| KconfigDupsLoop.RoundShrinks | sdk/config/kconfig/expr.c:616-638 | a round that counts a transformation makes the expression strictly smaller once constants are gone, so the loop ends |
| KconfigDupsLoop.DupsSharpens | sdk/config/kconfig/expr.c:616-638 | `expr_eliminate_dups` never changes a value that was y or n |
| KconfigDupsLoop.DupsExactWithoutModules | sdk/config/kconfig/expr.c:616-638 | it preserves the value of an expression in every environment in which no leaf of it is m |
| KconfigDupsLoop.DupsIdempotent | sdk/config/kconfig/expr.c:616-638 | running it again changes nothing |
| KconfigDupsClean.DupsFixes | sdk/config/kconfig/expr.c:616-638 | an expression is left alone exactly when no two operands of a group have a rule and no group contradicts anything beside it, at any depth; and what comes out is always of that kind |
| KconfigDupsClean.ContradictsExactly | sdk/config/kconfig/expr.c:576-606 | a group is contradicted exactly when all operands of its negation are among the other operands, each as often |
| KconfigDouble.DoubleCollapses | sdk/config/kconfig/expr.c:508-638 | `e && e` and `e || e`, for such an expression e, come to e exactly when no group among its operands is contradicted by the unit or by e itself, and to the deciding constant otherwise |
| KconfigDouble.DoubleJoins | sdk/config/kconfig/expr.c:508-558 | the first pass over a doubled group leaves one of each operand, in the right half |
| KconfigDoubleLoss.DoubleDiffers | sdk/config/kconfig/expr.c:508-558 | for a boolean a, `e := a && a!=m` becomes `a=y`, but `e && e` becomes `a=y && a!=m` |
| KconfigDupsInPlace.EliminateDups | sdk/config/kconfig/expr.c:616-638 | on heap nodes, overwriting operands through pointers to pointers that may be equal, the whole rewriting computes that function and puts the transformation counter back |
| KconfigDupsInPlace.Dups1 | sdk/config/kconfig/expr.c:508-558 | the first pass on two slots of one tree, aliased or not: the operands, the slots and the count are those of the function, and the group nodes stay |
| KconfigDupsInPlace.Dups2 | sdk/config/kconfig/expr.c:560-614 | the second pass likewise, including the descent into the second slot that does not end the call |
| KconfigDupsInPlace.Join | sdk/config/kconfig/expr.c:350-506 | NULL, or a new expression with the value of the rule; neither operand is touched |
| KconfigDupsInPlace.Contradicts | sdk/config/kconfig/expr.c:576-586 | the test of a group against the other slot, made on copies |
| KconfigExtractInPlace.ExtractEq | sdk/config/kconfig/expr.c:852-878 | the nodes of the first of two equal operands move to the result, constants take the places of both, and no node is in two of the three trees |
| KconfigCells.Store | sdk/config/kconfig/expr.c:538-541 | a store through a pointer to an operand changes that operand and nothing else of the tree |
| KconfigCells.SettlePart | sdk/config/kconfig/expr.c:572-573 | the groups around overwritten operands stand for the expression with the new operands |
| KconfigDupsLoss.DupsExactIff | sdk/config/kconfig/expr.c:616-638 | it is exact on all expressions over a set of symbols exactly when none of these symbols is m |
| KconfigDupsLoss.DupsCanLoseModule | sdk/config/kconfig/expr.c:560-614 | for every symbol a with value m, `(a || n) && !a` is m and is rewritten to n |
| KconfigPrint.PrintThenParse | sdk/config/kconfig/expr.c:1015-1079 | parsing what is printed gives the expression up to left re-association, with equal value in every environment |
| KconfigPrint.LeftAssocValue | sdk/config/kconfig/zconf.y:437-448 | re-association preserves the value |
| KconfigPrint.LeftAssocFixed | sdk/config/kconfig/zconf.y:82-85 | the round trip is the identity exactly on expressions whose chains lean left |
| KconfigPrint.ParensNeeded | sdk/config/kconfig/expr.c:1015-1079 | parentheses are printed if and only if some operand binds less tightly than what it is in |
| KconfigInPlace.EliminateYn | sdk/config/kconfig/expr.c:235-316 | overwriting nodes in place computes the function, with nodes the tree already had |
| KconfigInPlace.TransBool | sdk/config/kconfig/expr.c:321-345 | the same for the boolean rewriting |
| KconfigInPlace.Copy | sdk/config/kconfig/expr.c:67-102 | an equal tree that shares no node with the original |
| KconfigInPlace.CancelEq | sdk/config/kconfig/expr.c:135-166 | the same for cancelling, through the two slots, on trees that share no node |
| KconfigInPlace.EliminateEq | sdk/config/kconfig/expr.c:168-188 | the same for `expr_eliminate_eq` |
| KconfigInPlace.ExprEq | sdk/config/kconfig/expr.c:193-233 | the comparison leaves both expressions untouched: it destroys copies only |
| KconfigTransformInPlace.Transform | sdk/config/kconfig/expr.c:640-775 | the in-place transformation computes the function |
| KconfigDeps.Checker.CheckAll | sdk/config/kconfig/symbol.c:770-839 | at least one warning is printed if and only if the dependency graph has a cycle, every warning names such a cycle, and without a warning an order exists in which each symbol comes after all it depends on |
| KconfigDeps.Checker.CheckDeps | sdk/config/kconfig/symbol.c:797-839 | one search: what it returns, and how far the warning under way has come |
| KconfigDeps.Checker.CheckExprDeps | sdk/config/kconfig/symbol.c:772-795 | all symbols of an expression are visited, or the first recursion found comes back |
| KconfigDeps.SortedHasNoCycle | sdk/config/kconfig/symbol.c:797-839 | symbols that can be put in such an order are on no cycle |
| KconfigDeps.PathDescends | sdk/config/kconfig/symbol.c:797-839 | a path of dependencies leads backwards in such an order |
| KconfigDeps.ReportIsCycle | sdk/config/kconfig/symbol.c:830-838 | the names of a completed warning, read backwards, are a cycle |
| KconfigDeps.DepsAre | sdk/config/kconfig/symbol.c:800-839 | which symbols count as dependencies: those of the reverse dependency, of the conditions of properties other than choices and selects, and of the defaults of a symbol that is no choice |
| KconfigDeps.SelectsDoNotCount | sdk/config/kconfig/symbol.c:816-819 | without its selects a symbol has the same dependencies |
| KconfigValues.SolutionSolves | sdk/config/kconfig/symbol.c:272-379 | without circular dependencies an assignment exists that satisfies every symbol's equation |
| KconfigValues.OneSolution | sdk/config/kconfig/symbol.c:272-379 | and only one |
| KconfigValues.EquationLocal | sdk/config/kconfig/symbol.c:203-231 | a symbol's equation reads its dependencies only, as `sym_check_deps` counts them |
| KconfigValues.FaithfulSolves | sdk/config/kconfig/symbol.c:316-335 | the calculated values still solve the equations when they become the user's own, for all symbols or for all but invisible ones |
| KconfigValues.SetTakesEffect | sdk/config/kconfig/symbol.c:413-430 | where prompts leave room, `sym_tristate_within_range` accepts exactly the values the symbol will then have; where they do not, setting a value changes nothing |
| KconfigValues.SetSame | sdk/config/kconfig/symbol.c:432-469 | asking for the present value changes no value, so the caches may stay |
| KconfigRules.CalculatedValue | sdk/config/kconfig/symbol.c:203-347 | what a value means: never m where there can be none, at least what the selecting symbols ask for, and, where a prompt shows or a symbol selects it, what the user or the first default wants, moved into the range from the selects to the prompts; otherwise the first default that applies, or n |
| KconfigRules.PromptsAreLargest | sdk/config/kconfig/symbol.c:208-215 | the visibility comes from the largest prompt condition |
| KconfigRules.DefaultIsFirst | sdk/config/kconfig/symbol.c:130-140 | the default is the first one whose condition is not n |
| KconfigRules.WorthSaving | sdk/config/kconfig/symbol.c:313-336 | the write flag says that a prompt shows the symbol, a symbol selects it or a default applies |
| KconfigCalc.CheckAndCalculate | sdk/config/kconfig/zconf.y:469-474 | after the check for circular dependencies there is something to calculate exactly when there is no circle, and then every symbol gets its value in the only solution |
| KconfigCalc.Symbols.constructor | sdk/config/kconfig/symbol.c:272-379 | symbols not calculated yet, in an order of their dependencies, are in a right state for the calculation |
| KconfigCalc.Symbols.CalcValue | sdk/config/kconfig/symbol.c:272-379 | the memoised calculation stores the solution for the symbol, keeps all cached values right, and ends, in any order of calls |
| KconfigCalc.Symbols.CalcExpr | sdk/config/kconfig/expr.c:942-981 | calculating an expression, with the symbols it needs, gives its value under the solution |
| KconfigCalc.Symbols.CalcVisibility | sdk/config/kconfig/symbol.c:203-231 | visibility and reverse dependency are those of the equation |
| KconfigCalc.Symbols.CalcDefault | sdk/config/kconfig/symbol.c:130-140 | the value of the first default whose condition is not n |
| KconfigSave.SetTristate | sdk/config/kconfig/symbol.c:432-469 | success exactly for the present value and values in range, and after success the symbol has the value in the new solution |
| KconfigSave.ConfWrite | sdk/config/kconfig/confdata.c:384-461 | the banner, the headings of the visible menus, and for each symbol a line with its value in the solution, in the order of the menu entries, whether or not the caches were dropped |
| KconfigSave.ConfReadSimple | sdk/config/kconfig/confdata.c:117-233 | reading such a file, headings included, makes every symbol's value the user's own, without a warning if no symbol was written twice |
| KconfigFile.FileOwners | sdk/config/kconfig/confdata.c:384-461 | the lines of the file that tell a value are those of the menu entries with a symbol, in their order |
| KconfigFile.RowsOk | sdk/config/kconfig/confdata.c:155-165 | each line is either the entry of a symbol or, if no title reads like a setting, one that the reader skips |
| KconfigFile.HeadingShown | sdk/config/kconfig/confdata.c:411-424 | a heading is printed exactly when its condition is not n |
| KconfigSave.ReadLine | sdk/config/kconfig/confdata.c:134-233 | one line: what it assigns, what it ignores and when it warns |
| KconfigSave.EntryAsked | sdk/config/kconfig/confdata.c:155-204 | a saved line asks for just the value it was written for, the first time |
| KconfigSave.LinesAsk | sdk/config/kconfig/confdata.c:155-204 | what the lines about a name ask for, by what the name stands for: its value, a warning, or nothing |
| KconfigSave.ConfRead | sdk/config/kconfig/confdata.c:269-329 | after a reload every symbol has the same value; counted as unsaved are exactly the saved symbols that nothing asked to save |
| KconfigSave.SaveReloadSave | sdk/config/kconfig/confdata.c:384-461 | saving, reading back and saving again gives the same file, whatever the change counter said at first |
| KconfigSave.UnaskedIsIdle | sdk/config/kconfig/confdata.c:428-431 | a symbol without prompt, default and select is written and then counted as unsaved, so a reload reports a change although no value changed |
| KconfigText.EntryParses | sdk/config/kconfig/confdata.c:439-461 | the reader gets back name and value of a printed line |
| KconfigText.TitleIgnored | sdk/config/kconfig/confdata.c:138-146 | a menu title printed as a comment is skipped exactly when it does not read like a setting |
| KconfigText.EntryLooks | sdk/config/kconfig/confdata.c:440-459 | the printed lines for a symbol FOO |
| KconfigText.OtherLines | sdk/config/kconfig/confdata.c:155-231 | empty lines and other comments are skipped, other lines unexpected |
| KconfigString.StringComesBack | sdk/config/kconfig/confdata.c:205-224 | a string value comes back from the file exactly when it holds no line feed |
| KconfigString.UnescapeEscaped | sdk/config/kconfig/confdata.c:465-486 | escaped text is read back whole, and refused if the closing quote is missing |
| KconfigString.UnescapeAny | sdk/config/kconfig/confdata.c:206-218 | a backslash makes any character stand for itself, and what follows the closing quote does not matter |
| KconfigString.EscapeLength | sdk/config/kconfig/confdata.c:468-482 | only quotes and backslashes get a backslash |
| KconfigString.WriteEscaped | sdk/config/kconfig/confdata.c:468-482 | the writing loop puts a backslash before every quote and backslash and nowhere else |
| KconfigString.ReadEscaped | sdk/config/kconfig/confdata.c:206-218 | the reading loop, which closes the gaps in place, undoes that up to the closing quote |
| Menus.Finalize | sdk/config/kconfig/menu.c:205-323 | restructuring keeps the pre-order of the entries, those absorbed from the rest of the list included |
| Menus.Flatten | sdk/config/kconfig/menu.c:290-324 | moving children of promptless entries up keeps the pre-order |
| Menus.FinalizeNeat | sdk/config/kconfig/menu.c:314-323 | afterwards no entry without a prompt text has children, at any depth below |
| MenuRules.FinalizeLawful | sdk/config/kconfig/menu.c:205-323 | under an entry declared without children come just the followers joined to it, none if it has no symbol, and no entry is followed by one that could have joined it; below one declared with children are those that were declared there |
| MenuRules.OnlyOutcome | sdk/config/kconfig/menu.c:205-323 | no other tree of the same entries in the same order has these properties |
| MenuRules.FlattenShows | sdk/config/kconfig/menu.c:314-323 | the loop brings each entry to where it is shown: under its parent if that has a prompt text, otherwise behind it, and leaves the others where they are |
| MenusInPlace.MenuFinalize | sdk/config/kconfig/menu.c:205-323 | relinking the entries computes the restructured tree with consistent parent links, and the calls come one for each entry, in pre-order |
| MenusInPlace.AbsorbNext | sdk/config/kconfig/menu.c:263-288 | the followers that join become the children, and what is left follows |
| MenusInPlace.FlattenKids | sdk/config/kconfig/menu.c:290-324 | the last loop, on the links |
| MenusInPlace.Walk | sdk/config/kconfig/confdata.c:410-520 | the stackless walk by list, next and parent ends and meets every entry once, in pre-order |
| MenusInPlace.FinalizeThenWalk | sdk/config/kconfig/confdata.c:410-520 | after restructuring, the walk meets the same entries in the order they were declared in |
| Klist.ListIsUnique | sdk/include/klist.h:34-36 | the pointers determine what a list holds |
| Klist.OneCircle | sdk/include/klist.h:34-36 | two circles with a common node are the same circle, up to the node they start at |
| Klist.Rotate | sdk/include/klist.h:34-36 | any node of a circle can serve as its head |
| Klist.Add | sdk/include/klist.h:79-82 | insertion at the front |
| Klist.AddTail | sdk/include/klist.h:93-96 | insertion at the back |
| Klist.Del | sdk/include/klist.h:118-123 | removal from a place; the entry keeps no neighbours |
| Klist.DelInit | sdk/include/klist.h:155-159 | removal; the entry becomes an empty list |
| Klist.Replace | sdk/include/klist.h:135-142 | the new entry takes the place of the old one, also when that one was alone |
| Klist.ReplaceInit | sdk/include/klist.h:144-149 | and the old one becomes an empty list |
| Klist.Move | sdk/include/klist.h:166-170 | removal from one list, or from the same one, and insertion at the front |
| Klist.MoveTail | sdk/include/klist.h:177-182 | removal, and insertion at the back |
| Klist.Tests | sdk/include/klist.h:189-230 | empty, singular and last mean that of the sequence |
| Klist.CutPosition | sdk/include/klist.h:258-270 | the list is split behind the entry; an empty list, or one with a single other entry, is left alone and so is the destination |
| Klist.CutAt | sdk/include/klist.h:232-242 | the six assignments split a list at a place |
| Klist.Splice | sdk/include/klist.h:291-296 | concatenation in front; the emptied head keeps its stale pointers |
| Klist.SpliceTail | sdk/include/klist.h:303-308 | concatenation behind |
| Klist.SpliceInit | sdk/include/klist.h:317-324 | concatenation in front, and the other list is empty |
| Klist.SpliceTailInit | sdk/include/klist.h:334-341 | concatenation behind, and the other list is empty |
| Klist.ForEach | sdk/include/klist.h:368-370 | iteration meets every entry once, in order |
| Klist.DelSome | sdk/include/klist.h:400-402 | safe iteration with removals leaves the other entries, in order |
| RingBuffer.RingBuf.constructor | sdk/module/ringbuffer/ringbuf.c:257-272 | an empty deque |
| RingBuffer.RingBuf.Peek | sdk/module/ringbuffer/ringbuf.c:94-105 | where the front block is, exactly when there is one |
| RingBuffer.RingBuf.Pop | sdk/module/ringbuffer/ringbuf.c:113-134 | the front block leaves the deque, and is copied out if wanted |
| RingBuffer.RingBuf.Put | sdk/module/ringbuffer/ringbuf.c:142-164 | the block joins at the back exactly when there is room; only its own bytes change |
| RingBuffer.RingBuf.PutFront | sdk/module/ringbuffer/ringbuf.c:174-197 | the block joins at the front, also below position 0 |
| RingBuffer.RingBuf.DataPeek | sdk/module/ringbuffer/ringbuf.c:206-219 | the place for the next block, exactly when there is room |
| RingBuffer.RingBuf.DataPut | sdk/module/ringbuffer/ringbuf.c:229-248 | what was written at that place joins at the back; any other place is refused |
| RingBuffer.HeadStored | sdk/module/ringbuffer/ringbuf.c:206-219 | writing at that place does not change the contents before it is put |
| RingBuffer.HeadUp | sdk/module/ringbuffer/ringbuf.c:158-158 | advancing the head, past 2^32 as well, adds the block at its slot |
| RingBuffer.TailUp | sdk/module/ringbuffer/ringbuf.c:129-129 | advancing the tail, past 2^32 as well, drops the front block |
| RingBuffer.TailDown | sdk/module/ringbuffer/ringbuf.c:185-191 | stepping the tail back, below 0 as well, and storing adds a front block |
| RingBuffer.OtherBlocks | sdk/module/ringbuffer/ringbuf.c:155-157 | storing a block leaves every other block as it is |
| Atomics.FetchAndOp | sdk/module/message_queue/linux-atomic.c:78-98 | under any interference the operation takes effect at one moment, on its own lane modulo its width, leaves the other bytes alone, and returns the lane before or after, as named |
| Atomics.CompareAndSwap | sdk/module/message_queue/linux-atomic.c:168-196 | it stores exactly when it finds the expected value in its lane: every earlier round found that value and lost its swap to another change, and a refusal follows a round that found another value |
| Atomics.AddressLane | sdk/module/message_queue/linux-atomic.c:86-87 | shift and mask computed from the address select the lane at that address, on both byte orders |
| Atomics.LaneOwns | sdk/module/message_queue/linux-atomic.c:86-87 | the lane consists of the byte at the address, and for a halfword the one at the next address, on both byte orders |
| Atomics.OrOp | sdk/module/message_queue/linux-atomic.c:102-102 | the bitwise operations work on each part of the bits by itself, by their tables: or |
| Atomics.AndOp | sdk/module/message_queue/linux-atomic.c:103-103 | and |
| Atomics.XorOp | sdk/module/message_queue/linux-atomic.c:104-104 | exclusive or |
| Atomics.NandOp | sdk/module/message_queue/linux-atomic.c:105-105 | not-and |
| Atomics.AddOp | sdk/module/message_queue/linux-atomic.c:100-100 | addition counts up one by one |
| Atomics.SubOp | sdk/module/message_queue/linux-atomic.c:101-101 | subtraction counts down one by one |
| Atomics.StoredIsLoaded | sdk/module/message_queue/linux-atomic.c:91-93 | a store sets the lane to the value modulo the width |
| Atomics.OthersKept | sdk/module/message_queue/linux-atomic.c:91-93 | and no other byte |
| Atomics.LoadIsBytes | sdk/module/message_queue/linux-atomic.c:97-97 | a lane holds just its own bytes |
| Crc16.ShiftOut | app/rs485d/src/device/curtain/doya/doya.c:141-208 | one shift of the register is that of the definition of the CRC: the generator is applied exactly when a one falls out |
| Crc16.TableEntry | app/rs485d/src/device/curtain/doya/doya.c:141-189 | every entry of the two tables is the register after eight shifts of its index |
| Crc16.TableStep | app/rs485d/src/device/curtain/doya/doya.c:201-203 | a table-driven step is eight shifts of the register, whatever it holds |
| Crc16.ModbusCrc16 | app/rs485d/src/device/curtain/doya/doya.c:192-208 | the loop stores the bit-by-bit CRC of the bytes, low byte first, also into the buffer it reads |
| Crc16.CrcLinear | app/rs485d/src/device/curtain/doya/doya.c:192-208 | the CRC of a sum is the sum of the CRCs |
| Crc16.PresetComplements | app/rs485d/src/device/curtain/doya/doya.c:192-198 | starting the register at all ones is starting it at zero on the string with its first two bytes complemented |
| Crc16.MatchesIffZero | app/rs485d/src/device/curtain/doya/doya.c:924-930 | a frame passes exactly when the register ends at zero after all of it |
| Crc16.SentMatches | app/rs485d/src/device/curtain/doya/doya.c:924-930 | behind given bytes exactly their own CRC passes, and the register ends at zero |
| Crc16.BurstDetected | app/rs485d/src/device/curtain/doya/doya.c:924-930 | any burst of at most 16 wrong bits, in the order of sending, makes a good frame fail |
| CurtainFrames.SendPackage | app/rs485d/src/device/curtain/doya/doya.c:610-701 | the frame with its CRC is copied if it fits, and otherwise, or for a forbidden address, nothing is written and -1 returned |
| CurtainFrames.SentFramePasses | app/rs485d/src/device/curtain/doya/doya.c:610-701 | every frame sent passes the check, and fails it after any such burst |
| CurtainFrames.FrameTells | app/rs485d/src/device/curtain/doya/doya.c:610-701 | a frame tells address, command, data address and every data byte that its command carries; for an unknown command there is none |
| CurtainFrames.FramesDiffer | app/rs485d/src/device/curtain/doya/doya.c:610-701 | packages that differ in these have different frames |
| CurtainFrames.BadAddressShows | app/rs485d/src/device/curtain/doya/doya.c:617-625 | refused are just the packages that would give a motor an address with a byte 00 or FF |
| CurtainFrames.RecvPackageHandle | app/rs485d/src/device/curtain/doya/doya.c:901-958 | the verdict on a reply, for each kind of request |
| CurtainFrames.InfoCheckExact | app/rs485d/src/device/curtain/doya/doya.c:932-943 | replies to device queries are judged rightly, whatever two bytes end them, if and only if the CRC of the first five bytes is zero |
| CurtainFrames.InfoCheckFails | app/rs485d/src/device/curtain/doya/doya.c:932-943 | a correct reply that is refused, and a corrupt one that is taken |

## Left out

- QueueWakeup.NoLostWakeup: for one taking thread; AwakeExact says that this cannot be dropped.
- Weak memory ordering, semaphore overflow, EINTR, semaphore creation, allocation failure and `message_queue_destroy`.
- Progress of the spinning loops: the model says what every reachable state satisfies, not that a spinning thread gets on.
- KconfigDupsValue.Dups2Value: the value of an expression that is m may change; DupsExactIff says when.
- KconfigSame.ExprEqKeys: for expressions without constant or quoted operands; with them the comparison is sound only, and QuotedDiffer shows that it can fail on equal expressions.
- KconfigDouble.DoubleCollapses: for expressions that are clean already; DoubleDiffers gives one that is not, where it depends on the order in which rules meet their operands.
- KconfigInPlace.CancelEq: under the same condition as EliminateEq.
- KconfigInPlace.EliminateEq: on trees that share no node, as at all its call sites; on others the code frees nodes twice.
- NULL expressions inside a tree, E_CHOICE, E_RANGE and E_NONE nodes, freeing of nodes, and the debug output of the rewriter.
- `expr_trans_compare`, `expr_contains_symbol` and `expr_depends_symbol`: the first is exact only where its operand is not m, and the other two only feed the decision that is arbitrary in the menu model.
- KconfigPrint.PrintThenParse: on tokens, for symbols whose printed name denotes the same symbol; the lexer is not part of this model.
- KconfigValues.OneSolution: for boolean and tristate symbols that are no choices, with `modules_val` fixed; all other symbols have fixed values. Choices, ranges, int and hex values are left out because they break the order of dependencies.
- KconfigSave.ConfReadSimple: for files that `conf_write` made of boolean and tristate symbols, in which no title reads like a setting; lines fit the buffer of `fgets`. ReadLine covers every line of a boolean or tristate symbol.
- The change flags of symbols and menus, the header file that is written along with the configuration, and the renaming of files.
- Menus.Finalize: the rewriting of dependencies and prompts on the way (menu.c lines 231-255) and the additions for choices change no link and are left out; which entries join is arbitrary.
- Klist.CutPosition: requires, as its comment asks, that the entry is in the list or is its head when the list has more than one entry.
- List traversal macros that work on containing structures, and `list_entry`.
- RingBuffer.RingBuf.Put: the data is not part of the buffer itself; a NULL ring buffer is not an object of the class, and the number of elements times their size does not exceed 2^32.
- RingBuffer.RingBuf.constructor: takes any number of elements that divides 2^32 instead of testing for a power of two.
- Atomics.FetchAndOp: the compare-and-swap of the kernel fails only if the word has changed; that a loop ends is not stated, since interference may go on for ever.
- Atomics.CompareAndSwap: the boolean variant and lock release are a comparison and a store.
- CurtainFrames.RecvPackageHandle: frames of at least two bytes where a CRC is computed, as the code assumes.
- Device command tables, BACnet and MODBUS transport, serial ports, sockets, timers, logging and user interfaces: input and output without a property of their own.
