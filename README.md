# Recursion guards of jedi's type inference

jedi infers types by evaluating statements and function executions symbolically.
Analysed code can recurse, so `jedi/recursion.py` guards both kinds of evaluation:

- **Statement cycle guard** (`RecursionDecorator` with `RecursionNode`). It keeps a
  linked chain of nodes, one per statement evaluation in progress. It refuses a
  statement whose node equals an ancestor node: same script, same start
  position, and neither node ignored. A node is ignored when its statement is a
  parameter or belongs to the builtin scope. A refused statement yields the
  empty list and the wrapped evaluation does not run.
- **Execution budget guard** (`ExecutionRecursionDecorator`). It holds one set of
  counters for the whole run: depth, the path of executing bases, every base
  seen so far, and the number of attempts. Each attempt is recorded first. A
  fixed sequence of threshold tests then admits or refuses it. The depth and the
  path are always restored afterwards.

Files:

- `analysis.dfy` (module `Analysis`): the facts the guards read from jedi's parser
  and evaluator. These are statements (script, start position, parameter or not),
  executions (base and owning module) and the builtin scope id.
- `statement_recursion.dfy` (module `StatementRecursion`): `RecursionNode` is a
  class with immutable fields. `RecursionDecorator` is a class whose `current`
  field its methods update. The specification gives the chain as a sequence of
  statements (`ChainOf`), cycles (`HasCycle`) and the statements that get
  evaluated (`Invoked`).
- `statement_properties.dfy` (module `StatementProperties`): lemmas about node
  equality, cycle detection, complete evaluation of trees that close no cycle,
  ignored statements and self-recursion.
- `execution_recursion.dfy` (module `ExecutionRecursion`): the guard's state as a
  value (`Budget`), its bookkeeping (`Record`, `Unwind`), its decision
  (`Rejects`) and a whole guarded attempt (`Attempt`, `Executed`). The class
  `ExecutionRecursionDecorator` updates its fields in place; its methods are
  proved against these functions.
- `execution_properties.dfy` (module `ExecutionProperties`): lemmas about the
  bookkeeping, the hard cap, the exemptions, the order of the tests, the total
  work bound, complete execution of call trees within the limits, balance
  between calls, the hard cap over a sequence of attempts, and the depth cut of
  direct recursion.

The wrapped function re-enters the guards. So a guarded call is modelled as a
tree: an `Evaluation` or `ExecutionCall` names what is evaluated, the guarded
calls its wrapped function makes, and the list it returns. The `Call` methods
recurse over that tree. They push or record, run the nested calls only when
admitted, and then pop or clean up, as `__call__` does.

Points of the source the model keeps as written:

- The statement node is popped, and the execution guard cleaned up, only after
  the wrapped function returns normally (jedi/recursion.py:22-23, 99-100).
- `check_recursion` records every attempt (depth, path, seen bases, count)
  before it takes any test, exempt attempts included (jedi/recursion.py:112-115).
- The `max_executions` test comes before the generator, array, builtin and
  `evaluate_generator` exemptions (jedi/recursion.py:117-124), so exempt
  attempts are still refused past the hard cap.

## Model

| member | source | states |
|---|---|---|
| `StatementRecursion.RecursionNode.constructor` | jedi/recursion.py:64-74 | The node takes its script and position from the statement and links to the given parent. It is ignored exactly when the statement is a parameter or its script is the builtin scope. |
| `StatementRecursion.RecursionNode.Equals` | jedi/recursion.py:76-81 | Comparing with no node gives false. Otherwise two nodes are equal exactly when their statements have the same script and position and neither is ignored. |
| `StatementRecursion.ChainOf` | jedi/recursion.py:62-68 | The chain ending in a node lists exactly its ancestors' statements, outermost first, then its own. Its length is the number of nodes. |
| `StatementRecursion.CycleFreeExtend` | jedi/recursion.py:26-32 | Adding a statement that clashes with no ancestor keeps the chain free of clashing pairs. |
| `StatementRecursion.RecursionDecorator.constructor` | jedi/recursion.py:13-15 | A new guard starts with an empty chain. |
| `StatementRecursion.RecursionDecorator.Reset` | jedi/recursion.py:49-51 | After reset the chain is empty. |
| `StatementRecursion.RecursionDecorator.PushStmt` | jedi/recursion.py:26-32 | The answer is true exactly when the statement clashes with one already on the chain. In that case the chain is left as it was. Otherwise a fresh node for the statement, linked to the old innermost node, ends the chain. |
| `StatementRecursion.RecursionDecorator.PopStmt` | jedi/recursion.py:34-38 | On an empty chain nothing happens. Otherwise the innermost node is unlinked and the chain loses its last statement. |
| `StatementRecursion.RecursionDecorator.CheckRecursion` | jedi/recursion.py:40-47 | The walk from the parent up to the root answers true exactly when some proper ancestor equals the innermost node. |
| `StatementRecursion.RecursionDecorator.NodeStatements` | jedi/recursion.py:53-59 | The result is the chain's statements, outermost first. Its length is the number of nodes, and it is empty for an empty chain. |
| `StatementRecursion.RecursionDecorator.Call` | jedi/recursion.py:17-24 | A statement that closes a cycle gives `[]` and runs nothing. Otherwise it runs once, with its nested evaluations, and gives the wrapped result. Either way `current` is exactly as before. |
| `StatementProperties.ClashIsPartialEquivalence` | jedi/recursion.py:76-81 | Node equality is symmetric and transitive. A node equals one at its own place exactly when it is not ignored, and an ignored node equals nothing. |
| `StatementProperties.CycleIffClashingAncestor` | jedi/recursion.py:40-47 | Pushing a statement closes a cycle if and only if it clashes with a statement already on the chain. |
| `StatementProperties.NoCycleWithoutAncestorOrWhenIgnored` | jedi/recursion.py:70-74 | The first node of a chain never closes a cycle, and neither does an ignored statement. |
| `StatementProperties.ReentryRefused` | jedi/recursion.py:19-20 | Any evaluation whose statement clashes with one on the active chain is refused: its wrapped evaluation does not run, and none of its nested evaluations run either. |
| `StatementProperties.AcyclicAllInvoked` | jedi/recursion.py:17-24 | No false positives: when no statement of a guarded evaluation tree clashes with an ancestor on its own path, every statement is evaluated once, in tree order. |
| `StatementProperties.NestedAcyclicAllInvoked` | jedi/recursion.py:17-24 | The same holds for the first k nested evaluations of a call. |
| `StatementProperties.InvokedWithinPreorder` | jedi/recursion.py:17-24 | The guard never evaluates more statements than the tree holds, and it evaluates as many only when no statement closes a cycle on its path. |
| `StatementProperties.NestedInvokedWithinPreorder` | jedi/recursion.py:17-24 | The same holds for the first k nested evaluations of a call. |
| `StatementProperties.AllInvokedIffAcyclic` | jedi/recursion.py:17-24 | Both directions: a tree is evaluated completely and in order exactly when none of its statements clashes with an ancestor on its path. |
| `StatementProperties.AllIgnoredAcyclic` | jedi/recursion.py:70-81 | A tree whose statements are all ignored never clashes, from any chain. |
| `StatementProperties.AllIgnoredAllInvoked` | jedi/recursion.py:70-74 | When every statement of a guarded evaluation tree is ignored, every statement is evaluated in tree order, however deep the nesting. |
| `StatementProperties.SelfRecursionRunsOnce` | jedi/recursion.py:8-12 | An evaluation that re-enters the same non-ignored statement, to any depth, runs only the outermost evaluation. |
| `StatementProperties.IgnoredSelfRecursionRunsFully` | jedi/recursion.py:70-74 | Self-recursion through an ignored statement runs all n + 1 levels. |
| `ExecutionRecursion.Record` | jedi/recursion.py:110-115 | The bookkeeping before the decision keeps the balance invariant: depth equals path length, bases on the path have been seen, and the count is at least the depth. |
| `ExecutionRecursion.Unwind` | jedi/recursion.py:103-106 | Cleanup keeps the balance invariant. |
| `ExecutionRecursion.Attempt` | jedi/recursion.py:93-101 | After a whole guarded attempt, accepted or refused and including nested attempts, the depth and path are exactly as before. The count has grown by at least one, and the base has been added to the seen set. |
| `ExecutionRecursion.AttemptNested` | jedi/recursion.py:99 | The nested attempts of an admitted execution keep the depth and path, and never lower the count or forget a base. |
| `ExecutionRecursion.ExecutionRecursionDecorator.constructor` | jedi/recursion.py:89-91 | The guard starts in the reset state with the given thresholds. |
| `ExecutionRecursion.ExecutionRecursionDecorator.Reset` | jedi/recursion.py:136-141 | Depth 0, empty path, no seen bases, count 0. |
| `ExecutionRecursion.ExecutionRecursionDecorator.CheckRecursion` | jedi/recursion.py:108-134 | The new state is the old one with the attempt recorded, and balance is preserved. The answer is `Rejects`, the decision of lines 117-134 taken in the source's order. `HardCap`, `ExemptAdmitted` and `DecisionOrder` state its cases: refused past `max_executions` whatever the attempt is; otherwise admitted for generator or array bases, builtin owners and generator steps; otherwise refused for a re-entry past the depth limit, a repeated base once too many distinct bases were seen, or a count past the lower cap. |
| `ExecutionRecursion.ExecutionRecursionDecorator.Cleanup` | jedi/recursion.py:103-106 | The innermost base is popped from the path, the depth drops by one, and balance is preserved. |
| `ExecutionRecursion.ExecutionRecursionDecorator.Call` | jedi/recursion.py:93-101 | The new state is that of the whole attempt. A refused attempt gives `[]` and runs nothing. An admitted one runs its nested attempts and gives the wrapped result. Balance is preserved. |
| `ExecutionProperties.RecordThenUnwind` | jedi/recursion.py:104-115 | Recording then cleaning up one attempt restores the depth and path. The count rises by exactly one and the base is added to the seen set. |
| `ExecutionProperties.HardCap` | jedi/recursion.py:117-118 | An attempt counted past `max_executions` is refused, exempt or not. |
| `ExecutionProperties.ExemptAdmitted` | jedi/recursion.py:120-124 | Within the hard cap, generator or array bases, builtin-owned executions and generator steps are always admitted. |
| `ExecutionProperties.DecisionOrder` | jedi/recursion.py:126-134 | Within the hard cap, a non-exempt attempt is refused if and only if one of three conditions holds. (1) Its base was on the path and the new depth exceeds `max_function_recursion_level`. (2) Its base was already seen and the seen set exceeds `max_until_execution_unique`. (3) The new count exceeds `max_executions_without_builtins`. |
| `ExecutionProperties.HardCapIsFinal` | jedi/recursion.py:117-118 | At or past the hard cap, an attempt runs nothing, nested attempts included, and the run stays past the cap. |
| `ExecutionProperties.WorkBound` | jedi/recursion.py:113-118 | Each execution that runs is one more counted attempt. While anything runs, the count stays within `max_executions`. |
| `ExecutionProperties.NestedWorkBound` | jedi/recursion.py:99 | The same bound holds for the nested attempts of an admitted execution. |
| `ExecutionProperties.WithinLimitsAllExecuted` | jedi/recursion.py:96-134 | No false positives: a call tree whose attempts, depth and distinct bases stay within every threshold is executed completely, each execution once, in order. The count rises by exactly its size, and exactly its bases are remembered. |
| `ExecutionProperties.NestedWithinLimitsAllExecuted` | jedi/recursion.py:96-134 | The same holds for the first k nested attempts of a call. |
| `ExecutionProperties.BasesOfConcat` | jedi/recursion.py:114 | The bases remembered over two stretches of attempts are the union of those remembered over each. |
| `ExecutionProperties.RunPastCapExecutesNothing` | jedi/recursion.py:117-118 | Once the count has reached `max_executions`, no later top-level attempt runs anything. |
| `ExecutionProperties.RunWorkBound` | jedi/recursion.py:112-118 | From any state within the hard cap, the attempts already counted plus the executions run by any sequence of top-level attempts stay within `max_executions`. |
| `ExecutionProperties.RunWorkCapped` | jedi/recursion.py:117-118 | A run started by `reset` runs at most `max_executions` executions, however many top-level attempts it makes. |
| `ExecutionProperties.RunKeepsBalance` | jedi/recursion.py:93-115 | Over any sequence of top-level attempts from a balanced state, such as the reset state, balance holds, the depth and path come back, and the count rises by at least one per attempt. |
| `ExecutionProperties.LeafStep` | jedi/recursion.py:93-115 | An attempt that makes no nested attempt, admitted or refused, leaves the depth and path as they were. It counts exactly one attempt and remembers its base. |
| `ExecutionProperties.LeafRefusedAtCap` | jedi/recursion.py:108-134 | From an empty path, when the hard cap is the lowest cap and the seen set is no larger than the count, an attempt is refused exactly when it passes the hard cap. |
| `ExecutionProperties.LeafDecisions` | jedi/recursion.py:93-134 | For a sequence of top-level attempts without nested attempts, under the same conditions, each attempt is refused exactly when it is counted past `max_executions`. |
| `ExecutionProperties.FiveAdmittedThenRefused` | jedi/recursion.py:117-118 | With a hard cap of 5, a fresh run's first five attempts are within it and the sixth is past it. |
| `ExecutionProperties.SixthAttemptRefused` | jedi/recursion.py:117-118 | With `max_executions` = 5 and the other limits out of reach, six attempts without nested attempts: the first five are admitted and the sixth is refused. |
| `ExecutionProperties.ReentriesWithinDepth` | jedi/recursion.py:126-128 | Each re-entry of an execution already on the path runs exactly while the depth it reaches is within `max_function_recursion_level`. |
| `ExecutionProperties.DirectRecursionLevels` | jedi/recursion.py:126-128 | A function that re-enters itself n levels deep, from a fresh run with the other limits out of reach, runs exactly min(n + 1, max(L, 1)) levels, where L is `max_function_recursion_level`. |

## Left out

- Exceptions raised by the wrapped function are not modelled; every wrapped call returns normally. In the source an exception leaves the statement node linked and the execution counters unbalanced, because it pops and cleans up only after a normal return (jedi/recursion.py:22-23, 99-100).
- The wrapped functions' real work (`evaluate_representation`, `parsing_representation`) is not modelled. A call tree stands for it: the guarded calls it makes, and the list it returns. Arguments passed through `*args` and `**kwargs` are not modelled.
- `get_parent_until`, the `isinstance` tests for `pr.Param`, `er.Generator` and `er.Array`, and `builtin.Builtin.scope` are not computed. Their answers are fields of the `Stmt`, `Base` and `Execution` records and the constant `BuiltinScope`.
- Diagnostics (`debug.warning`, `debug.dbg`) and the commented-out print are left out; they do not affect any decision.
- The unused `top` field of `RecursionDecorator` is left out.
- The class-level singleton mechanism is replaced by one explicit `ExecutionRecursionDecorator` object. In the source, a second instance's `__init__` resets the shared counters; the model does not capture that sharing. The source also reads the `settings.max_*` thresholds anew at every check (jedi/recursion.py:117, 127, 130, 132), so they may change during a run; the model fixes them in the `limits` constant when the guard is made.
- `__eq__` returns `None` when compared with `None`. The model uses false, which is how the caller reads it.
- `cleanup` on an empty path raises `IndexError` in the source. `Cleanup` instead requires a non-empty path, which holds because `__call__` always records the attempt first.
- `ExecutionRecursion.ExecutionRecursionDecorator.CheckRecursion` preserves balance only when it held before the call (`old(Valid()) ==> Valid()`). The source never checks balance, and the method is correct without it.
