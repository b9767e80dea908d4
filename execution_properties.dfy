/** What the execution budget guard promises: its bookkeeping, the order of its
    tests, the hard cap on work for a whole run, complete execution of call trees
    within the limits, and the depth at which direct recursion is cut. */
module ExecutionProperties {
  import opened Analysis
  import opened ExecutionRecursion

  /** Entering and leaving one attempt, accepted or refused, leaves the depth and
      the path as they were, counts one attempt and remembers the base. */
  lemma RecordThenUnwind(b: Budget, x: Execution)
    ensures Unwind(Record(b, x)) == Budget(b.recursionLevel, b.parentExecutionFuncs,
                                           b.executionFuncs + {x.base}, b.executionCount + 1)
  {
    assert (b.parentExecutionFuncs + [x.base])[..|b.parentExecutionFuncs|] == b.parentExecutionFuncs;
  }

  /** An attempt that would be counted past `max_executions` is refused, whatever
      it is: generator or array bases, builtin executions and generator steps
      included. */
  lemma HardCap(limits: Limits, b: Budget, x: Execution, evaluateGenerator: bool)
    requires b.executionCount >= limits.maxExecutions
    ensures Rejects(limits, b, x, evaluateGenerator)
  {
  }

  /** Within the hard cap, generator and array bases, executions owned by the
      builtin scope and generator steps are always admitted. */
  lemma ExemptAdmitted(limits: Limits, b: Budget, x: Execution, evaluateGenerator: bool)
    requires b.executionCount < limits.maxExecutions
    requires x.base.isGeneratorOrArray || evaluateGenerator || x.owner == BuiltinScope
    ensures !Rejects(limits, b, x, evaluateGenerator)
  {
  }

  /** Within the hard cap, any other attempt is refused exactly when it is a
      recursive re-entry past the depth limit, or a repeated base once too many
      distinct bases were seen, or the attempt count passes the lower cap. */
  lemma DecisionOrder(limits: Limits, b: Budget, x: Execution, evaluateGenerator: bool)
    requires b.executionCount < limits.maxExecutions
    requires !x.base.isGeneratorOrArray && !evaluateGenerator && x.owner != BuiltinScope
    ensures Rejects(limits, b, x, evaluateGenerator) <==>
      || (x.base in b.parentExecutionFuncs && b.recursionLevel + 1 > limits.maxFunctionRecursionLevel)
      || (x.base in b.executionFuncs && |b.executionFuncs + {x.base}| > limits.maxUntilExecutionUnique)
      || b.executionCount + 1 > limits.maxExecutionsWithoutBuiltins
  {
  }

  /** Once the hard cap is reached, an attempt runs nothing at all (no nested
      attempt either), and the run stays at or past the cap, so every later
      attempt is refused too. */
  lemma HardCapIsFinal(limits: Limits, b: Budget, t: ExecutionCall)
    requires b.executionCount >= limits.maxExecutions
    ensures Executed(limits, b, t) == []
    ensures Attempt(limits, b, t).executionCount > limits.maxExecutions
  {
    HardCap(limits, b, t.execution, t.evaluateGenerator);
  }

  /** The work bound: each execution that runs is one more attempt counted, and
      while anything runs, every run execution fits under `max_executions`. */
  lemma {:induction false} WorkBound(limits: Limits, b: Budget, t: ExecutionCall)
    ensures b.executionCount + |Executed(limits, b, t)| <= Attempt(limits, b, t).executionCount
    ensures Executed(limits, b, t) != [] ==> b.executionCount + |Executed(limits, b, t)| <= limits.maxExecutions
    decreases t, 1
  {
    if !Rejects(limits, b, t.execution, t.evaluateGenerator) {
      NestedWorkBound(limits, Record(b, t.execution), t, |t.nested|);
    }
  }

  lemma {:induction false} NestedWorkBound(limits: Limits, b: Budget, t: ExecutionCall, k: nat)
    requires k <= |t.nested|
    requires b.executionCount <= limits.maxExecutions
    ensures b.executionCount + |NestedExecuted(limits, b, t, k)| <= AttemptNested(limits, b, t, k).executionCount
    ensures b.executionCount + |NestedExecuted(limits, b, t, k)| <= limits.maxExecutions
    decreases t, 0, k
  {
    if k > 0 {
      NestedWorkBound(limits, b, t, k - 1);
      WorkBound(limits, AttemptNested(limits, b, t, k - 1), t.nested[k - 1]);
    }
  }

  /** The executions of the call tree in the order they are reached. */
  ghost function ExecPreorder(t: ExecutionCall): seq<Execution>
    decreases t, 1
  {
    [t.execution] + NestedExecPreorder(t, |t.nested|)
  }

  ghost function NestedExecPreorder(t: ExecutionCall, k: nat): seq<Execution>
    requires k <= |t.nested|
    decreases t, 0, k
  {
    if k == 0 then [] else NestedExecPreorder(t, k - 1) + ExecPreorder(t.nested[k - 1])
  }

  /** The number of levels of the call tree. */
  ghost function Depth(t: ExecutionCall): nat
    decreases t, 1
  {
    1 + NestedDepth(t, |t.nested|)
  }

  /** The deepest of the first `k` nested call trees. */
  ghost function NestedDepth(t: ExecutionCall, k: nat): nat
    requires k <= |t.nested|
    decreases t, 0, k
  {
    if k == 0 then 0
    else if NestedDepth(t, k - 1) < Depth(t.nested[k - 1]) then Depth(t.nested[k - 1])
    else NestedDepth(t, k - 1)
  }

  /** The bases of a sequence of executions. */
  ghost function BasesOf(s: seq<Execution>): set<Base> {
    set x | x in s :: x.base
  }

  lemma BasesOfConcat(a: seq<Execution>, c: seq<Execution>)
    ensures BasesOf(a + c) == BasesOf(a) + BasesOf(c)
  {
    forall y | y in BasesOf(a + c) ensures y in BasesOf(a) + BasesOf(c) {
      var x :| x in a + c && x.base == y;
    }
    forall y | y in BasesOf(a) + BasesOf(c) ensures y in BasesOf(a + c) {
      if y in BasesOf(a) {
        var x :| x in a && x.base == y;
        assert x in a + c;
      } else {
        var x :| x in c && x.base == y;
        assert x in a + c;
      }
    }
  }

  lemma {:induction false} SubsetCardinality(a: set<Base>, c: set<Base>)
    requires a <= c
    ensures |a| <= |c|
    decreases |a|
  {
    if a != {} {
      var x :| x in a;
      SubsetCardinality(a - {x}, c - {x});
    }
  }

  /** No false positives: a call tree whose work, depth and distinct bases all
      stay within the thresholds is executed completely, each execution once,
      in order; the run counts exactly those attempts and remembers exactly
      those bases. */
  lemma {:induction false} WithinLimitsAllExecuted(limits: Limits, b: Budget, t: ExecutionCall)
    requires b.executionCount + |ExecPreorder(t)| <= limits.maxExecutions
    requires b.executionCount + |ExecPreorder(t)| <= limits.maxExecutionsWithoutBuiltins
    requires b.recursionLevel + Depth(t) <= limits.maxFunctionRecursionLevel
    requires |b.executionFuncs + BasesOf(ExecPreorder(t))| <= limits.maxUntilExecutionUnique
    ensures Executed(limits, b, t) == ExecPreorder(t)
    ensures Attempt(limits, b, t).executionCount == b.executionCount + |ExecPreorder(t)|
    ensures Attempt(limits, b, t).executionFuncs == b.executionFuncs + BasesOf(ExecPreorder(t))
    decreases t, 1
  {
    var x := t.execution;
    var entered := Record(b, x);
    var rest := NestedExecPreorder(t, |t.nested|);
    assert ExecPreorder(t) == [x] + rest;
    BasesOfConcat([x], rest);
    assert BasesOf([x]) == {x.base};
    assert entered.executionFuncs + BasesOf(rest) == b.executionFuncs + BasesOf(ExecPreorder(t));
    SubsetCardinality(b.executionFuncs + {x.base}, b.executionFuncs + BasesOf(ExecPreorder(t)));
    assert !Rejects(limits, b, x, t.evaluateGenerator);
    NestedWithinLimitsAllExecuted(limits, entered, t, |t.nested|);
  }

  lemma {:induction false} NestedWithinLimitsAllExecuted(limits: Limits, b: Budget, t: ExecutionCall, k: nat)
    requires k <= |t.nested|
    requires b.executionCount + |NestedExecPreorder(t, k)| <= limits.maxExecutions
    requires b.executionCount + |NestedExecPreorder(t, k)| <= limits.maxExecutionsWithoutBuiltins
    requires b.recursionLevel + NestedDepth(t, k) <= limits.maxFunctionRecursionLevel
    requires |b.executionFuncs + BasesOf(NestedExecPreorder(t, k))| <= limits.maxUntilExecutionUnique
    ensures NestedExecuted(limits, b, t, k) == NestedExecPreorder(t, k)
    ensures AttemptNested(limits, b, t, k).executionCount == b.executionCount + |NestedExecPreorder(t, k)|
    ensures AttemptNested(limits, b, t, k).executionFuncs == b.executionFuncs + BasesOf(NestedExecPreorder(t, k))
    decreases t, 0, k
  {
    if k > 0 {
      var before := NestedExecPreorder(t, k - 1);
      var last := ExecPreorder(t.nested[k - 1]);
      var seen := b.executionFuncs + BasesOf(before);
      assert NestedExecPreorder(t, k) == before + last;
      BasesOfConcat(before, last);
      assert b.executionFuncs + BasesOf(NestedExecPreorder(t, k)) == seen + BasesOf(last);
      SubsetCardinality(seen, seen + BasesOf(last));
      NestedWithinLimitsAllExecuted(limits, b, t, k - 1);
      var mid := AttemptNested(limits, b, t, k - 1);
      assert mid.executionFuncs == seen && mid.recursionLevel == b.recursionLevel;
      WithinLimitsAllExecuted(limits, mid, t.nested[k - 1]);
    }
  }

  /** The state after a sequence of top-level attempts, in order. */
  function Run(limits: Limits, b: Budget, ts: seq<ExecutionCall>): Budget
    decreases |ts|
  {
    if ts == [] then b else Run(limits, Attempt(limits, b, ts[0]), ts[1..])
  }

  /** The executions whose wrapped evaluation runs during a sequence of top-level
      attempts, in order. */
  ghost function RunExecuted(limits: Limits, b: Budget, ts: seq<ExecutionCall>): seq<Execution>
    decreases |ts|
  {
    if ts == [] then []
    else Executed(limits, b, ts[0]) + RunExecuted(limits, Attempt(limits, b, ts[0]), ts[1..])
  }

  /** Once the hard cap is reached, no later top-level attempt runs anything. */
  lemma {:induction false} RunPastCapExecutesNothing(limits: Limits, b: Budget, ts: seq<ExecutionCall>)
    requires b.executionCount >= limits.maxExecutions
    ensures RunExecuted(limits, b, ts) == []
    decreases |ts|
  {
    if ts != [] {
      HardCapIsFinal(limits, b, ts[0]);
      RunPastCapExecutesNothing(limits, Attempt(limits, b, ts[0]), ts[1..]);
    }
  }

  /** The run-wide work bound: from a state within the hard cap, the attempts
      counted so far plus the executions that run afterwards, over any sequence of
      top-level attempts, never exceed `max_executions`. */
  lemma {:induction false} RunWorkBound(limits: Limits, b: Budget, ts: seq<ExecutionCall>)
    requires b.executionCount <= limits.maxExecutions
    ensures b.executionCount + |RunExecuted(limits, b, ts)| <= limits.maxExecutions
    decreases |ts|
  {
    if ts != [] {
      var next := Attempt(limits, b, ts[0]);
      WorkBound(limits, b, ts[0]);
      if next.executionCount <= limits.maxExecutions {
        RunWorkBound(limits, next, ts[1..]);
      } else {
        RunPastCapExecutesNothing(limits, next, ts[1..]);
      }
    }
  }

  /** Over a whole run started by `reset`, no more than `max_executions`
      executions ever run, however many top-level attempts it makes. */
  lemma RunWorkCapped(limits: Limits, ts: seq<ExecutionCall>)
    requires limits.maxExecutions >= 0
    ensures |RunExecuted(limits, Initial, ts)| <= limits.maxExecutions
  {
    RunWorkBound(limits, Initial, ts);
  }

  /** Between top-level attempts the guard is balanced: from any balanced state
      (in particular the one `reset` leaves) the depth and the path come back,
      the count rises by at least one per attempt, and no base is forgotten. */
  lemma {:induction false} RunKeepsBalance(limits: Limits, b: Budget, ts: seq<ExecutionCall>)
    requires Balanced(b)
    ensures Balanced(Run(limits, b, ts))
    ensures Run(limits, b, ts).recursionLevel == b.recursionLevel
    ensures Run(limits, b, ts).parentExecutionFuncs == b.parentExecutionFuncs
    ensures Run(limits, b, ts).executionCount >= b.executionCount + |ts|
    ensures b.executionFuncs <= Run(limits, b, ts).executionFuncs
    decreases |ts|
  {
    if ts != [] {
      RunKeepsBalance(limits, Attempt(limits, b, ts[0]), ts[1..]);
    }
  }

  /** The admit/refuse answers to a sequence of top-level attempts, in order
      (true for a refusal). */
  function Decisions(limits: Limits, b: Budget, ts: seq<ExecutionCall>): seq<bool>
    decreases |ts|
  {
    if ts == [] then []
    else [Rejects(limits, b, ts[0].execution, ts[0].evaluateGenerator)]
         + Decisions(limits, Attempt(limits, b, ts[0]), ts[1..])
  }

  /** An attempt that makes no nested attempt, admitted or refused, only records
      itself and cleans up: it is counted once and its base is remembered. */
  lemma LeafStep(limits: Limits, b: Budget, t: ExecutionCall)
    requires t.nested == []
    ensures Attempt(limits, b, t) == Budget(b.recursionLevel, b.parentExecutionFuncs,
                                            b.executionFuncs + {t.execution.base}, b.executionCount + 1)
  {
    assert AttemptNested(limits, Record(b, t.execution), t, 0) == Record(b, t.execution);
    RecordThenUnwind(b, t.execution);
  }

  /** The answers of a caller that refuses exactly the attempts counted past
      `cap`, for `n` attempts made after `count` earlier ones. */
  function CapAnswers(count: int, n: nat, cap: int): seq<bool>
    decreases n
  {
    if n == 0 then [] else [count + 1 > cap] + CapAnswers(count + 1, n - 1, cap)
  }

  /** Top-level attempts that make no nested attempts, from a state with nothing
      on the path, while the hard cap is the lowest of the three caps: each is
      refused exactly when it is counted past `max_executions`. */
  lemma {:induction false} LeafDecisions(limits: Limits, b: Budget, ts: seq<ExecutionCall>)
    requires b.parentExecutionFuncs == [] && |b.executionFuncs| <= b.executionCount
    requires limits.maxExecutions <= limits.maxExecutionsWithoutBuiltins
    requires limits.maxExecutions <= limits.maxUntilExecutionUnique
    requires forall i :: 0 <= i < |ts| ==> ts[i].nested == []
    ensures Decisions(limits, b, ts) == CapAnswers(b.executionCount, |ts|, limits.maxExecutions)
    decreases |ts|
  {
    if ts != [] {
      var t := ts[0];
      var next := Attempt(limits, b, t);
      LeafStep(limits, b, t);
      assert next.parentExecutionFuncs == [] && |next.executionFuncs| <= next.executionCount;
      LeafRefusedAtCap(limits, b, t);
      assert forall i :: 0 <= i < |ts[1..]| ==> ts[1..][i].nested == [];
      LeafDecisions(limits, next, ts[1..]);
      assert Decisions(limits, b, ts) == [Rejects(limits, b, t.execution, t.evaluateGenerator)] + Decisions(limits, next, ts[1..]);
    }
  }

  /** One step of the above: under the other caps, the attempt is refused exactly
      at the hard cap. */
  lemma LeafRefusedAtCap(limits: Limits, b: Budget, t: ExecutionCall)
    requires b.parentExecutionFuncs == [] && |b.executionFuncs| <= b.executionCount
    requires limits.maxExecutions <= limits.maxExecutionsWithoutBuiltins
    requires limits.maxExecutions <= limits.maxUntilExecutionUnique
    ensures Rejects(limits, b, t.execution, t.evaluateGenerator) <==> b.executionCount + 1 > limits.maxExecutions
  {
    assert |b.executionFuncs + {t.execution.base}| <= |b.executionFuncs| + 1;
  }

  /** With `max_executions` = 5 and the other limits out of reach, six top-level
      attempts one after the other, none of which makes a nested attempt: the
      first five are admitted, the sixth is refused. */
  lemma SixthAttemptRefused(limits: Limits, ts: seq<ExecutionCall>)
    requires limits.maxExecutions == 5
    requires limits.maxExecutionsWithoutBuiltins >= 5 && limits.maxUntilExecutionUnique >= 5
    requires |ts| == 6 && forall i :: 0 <= i < |ts| ==> ts[i].nested == []
    ensures Decisions(limits, Initial, ts) == [false, false, false, false, false, true]
  {
    LeafDecisions(limits, Initial, ts);
    FiveAdmittedThenRefused();
  }

  /** Six attempts from a fresh run under a hard cap of 5. */
  lemma FiveAdmittedThenRefused()
    ensures CapAnswers(0, 6, 5) == [false, false, false, false, false, true]
  {
  }

  /** An execution whose wrapped evaluation re-enters it directly, `n` levels
      deep. */
  function SelfCalls(x: Execution, n: nat): ExecutionCall {
    if n == 0 then ExecutionCall(x, false, [], [])
    else ExecutionCall(x, false, [SelfCalls(x, n - 1)], [])
  }

  /** `n` copies of `x`. */
  function Copies(x: Execution, n: nat): seq<Execution> {
    if n == 0 then [] else [x] + Copies(x, n - 1)
  }

  /** The re-entries of a self-recursive execution already on the path: each
      runs while the depth it reaches is within `max_function_recursion_level`. */
  lemma {:induction false} ReentriesWithinDepth(limits: Limits, b: Budget, x: Execution, m: nat)
    requires !x.base.isGeneratorOrArray && x.owner != BuiltinScope
    requires x.base in b.parentExecutionFuncs && b.executionFuncs == {x.base}
    requires b.executionCount + m + 1 <= limits.maxExecutions
    requires b.executionCount + m + 1 <= limits.maxExecutionsWithoutBuiltins
    requires limits.maxUntilExecutionUnique >= 1
    ensures Executed(limits, b, SelfCalls(x, m)) ==
      Copies(x, if b.recursionLevel + 1 > limits.maxFunctionRecursionLevel then 0
                else if m + 1 < limits.maxFunctionRecursionLevel - b.recursionLevel then m + 1
                else limits.maxFunctionRecursionLevel - b.recursionLevel)
    decreases m
  {
    var t := SelfCalls(x, m);
    var entered := Record(b, x);
    assert entered.executionFuncs == {x.base};
    if b.recursionLevel + 1 > limits.maxFunctionRecursionLevel {
      assert Rejects(limits, b, x, false);
    } else {
      assert !Rejects(limits, b, x, false);
      if m > 0 {
        assert x.base in entered.parentExecutionFuncs;
        ReentriesWithinDepth(limits, entered, x, m - 1);
        assert NestedExecuted(limits, entered, t, 1) == Executed(limits, entered, SelfCalls(x, m - 1));
      }
    }
  }

  /** A function that re-enters itself `n` levels deep, from a fresh run, with
      the other limits out of reach: exactly min(n + 1, max(L, 1)) levels run,
      where L is `max_function_recursion_level`; the first entry always runs,
      since nothing is on the path yet. */
  lemma DirectRecursionLevels(limits: Limits, x: Execution, n: nat)
    requires !x.base.isGeneratorOrArray && x.owner != BuiltinScope
    requires n + 1 <= limits.maxExecutions && n + 1 <= limits.maxExecutionsWithoutBuiltins
    requires limits.maxUntilExecutionUnique >= 1
    ensures var levels := if limits.maxFunctionRecursionLevel < 1 then 1 else limits.maxFunctionRecursionLevel;
            Executed(limits, Initial, SelfCalls(x, n)) == Copies(x, if n + 1 < levels then n + 1 else levels)
  {
    var t := SelfCalls(x, n);
    var entered := Record(Initial, x);
    assert !Rejects(limits, Initial, x, false);
    if n > 0 {
      assert entered.executionFuncs == {x.base} && x.base in entered.parentExecutionFuncs;
      ReentriesWithinDepth(limits, entered, x, n - 1);
      assert NestedExecuted(limits, entered, t, 1) == Executed(limits, entered, SelfCalls(x, n - 1));
    }
  }
}
