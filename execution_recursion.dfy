/** The execution budget guard: `ExecutionRecursionDecorator` counts every
    execution attempt of the whole analysis run and refuses attempts that go too
    deep, repeat too often or exceed the run's work budget. */
module ExecutionRecursion {
  import opened Analysis

  /** The four thresholds read from jedi's settings. */
  datatype Limits = Limits(
    maxExecutions: int,
    maxFunctionRecursionLevel: int,
    maxUntilExecutionUnique: int,
    maxExecutionsWithoutBuiltins: int)

  /** The guard's bookkeeping: depth, the bases of the executions on the current
      call path (innermost last), every base seen in the run, and the number of
      attempts made. */
  datatype Budget = Budget(
    recursionLevel: int,
    parentExecutionFuncs: seq<Base>,
    executionFuncs: set<Base>,
    executionCount: int)

  /** The state after `reset`. */
  const Initial := Budget(0, [], {}, 0)

  /** The invariant kept between and during calls: the depth is the length of the
      path, every base on the path has been seen, and every level of depth was
      counted as an attempt. */
  ghost predicate Balanced(b: Budget) {
    && b.recursionLevel == |b.parentExecutionFuncs|
    && (forall x :: x in b.parentExecutionFuncs ==> x in b.executionFuncs)
    && b.executionCount >= b.recursionLevel
  }

  /** The bookkeeping `check_recursion` does before deciding. */
  function Record(b: Budget, x: Execution): (r: Budget)
    ensures Balanced(b) ==> Balanced(r)
  {
    Budget(b.recursionLevel + 1, b.parentExecutionFuncs + [x.base],
           b.executionFuncs + {x.base}, b.executionCount + 1)
  }

  /** `cleanup`: leaves the innermost execution of the path. */
  function Unwind(b: Budget): (r: Budget)
    requires |b.parentExecutionFuncs| > 0
    ensures Balanced(b) ==> Balanced(r)
  {
    Budget(b.recursionLevel - 1, b.parentExecutionFuncs[..|b.parentExecutionFuncs| - 1],
           b.executionFuncs, b.executionCount)
  }

  /** The decision `check_recursion` reaches for `x` from state `b` (before its
      bookkeeping), tests taken in the order the guard takes them. */
  predicate Rejects(limits: Limits, b: Budget, x: Execution, evaluateGenerator: bool) {
    var after := Record(b, x);
    if after.executionCount > limits.maxExecutions then true
    else if x.base.isGeneratorOrArray then false
    else if evaluateGenerator || x.owner == BuiltinScope then false
    else if x.base in b.parentExecutionFuncs && after.recursionLevel > limits.maxFunctionRecursionLevel then true
    else if x.base in b.executionFuncs && |after.executionFuncs| > limits.maxUntilExecutionUnique then true
    else after.executionCount > limits.maxExecutionsWithoutBuiltins
  }

  /** An execution attempt as the guard sees it: if admitted, the wrapped
      evaluation makes the `nested` guarded attempts in order and yields `result`. */
  datatype ExecutionCall = ExecutionCall(
    execution: Execution,
    evaluateGenerator: bool,
    nested: seq<ExecutionCall>,
    result: seq<TypeId>)

  /** The state after the whole guarded attempt `t` from state `b`: the depth and
      the path come back as they were, at least this attempt is counted, and its
      base is remembered. */
  function Attempt(limits: Limits, b: Budget, t: ExecutionCall): (r: Budget)
    ensures r.recursionLevel == b.recursionLevel
    ensures r.parentExecutionFuncs == b.parentExecutionFuncs
    ensures r.executionCount > b.executionCount
    ensures b.executionFuncs + {t.execution.base} <= r.executionFuncs
    decreases t, 1
  {
    var entered := Record(b, t.execution);
    var done := if Rejects(limits, b, t.execution, t.evaluateGenerator) then entered
                else AttemptNested(limits, entered, t, |t.nested|);
    Unwind(done)
  }

  /** The state after the first `k` nested attempts of `t`, starting from `b`. */
  function AttemptNested(limits: Limits, b: Budget, t: ExecutionCall, k: nat): (r: Budget)
    requires k <= |t.nested|
    ensures r.recursionLevel == b.recursionLevel
    ensures r.parentExecutionFuncs == b.parentExecutionFuncs
    ensures r.executionCount >= b.executionCount
    ensures b.executionFuncs <= r.executionFuncs
    decreases t, 0, k
  {
    if k == 0 then b
    else Attempt(limits, AttemptNested(limits, b, t, k - 1), t.nested[k - 1])
  }

  /** The executions whose wrapped evaluation runs, in order, during attempt `t`. */
  ghost function Executed(limits: Limits, b: Budget, t: ExecutionCall): seq<Execution>
    decreases t, 1
  {
    if Rejects(limits, b, t.execution, t.evaluateGenerator) then []
    else [t.execution] + NestedExecuted(limits, Record(b, t.execution), t, |t.nested|)
  }

  /** The same for the first `k` nested attempts of `t`, starting from `b`. */
  ghost function NestedExecuted(limits: Limits, b: Budget, t: ExecutionCall, k: nat): seq<Execution>
    requires k <= |t.nested|
    decreases t, 0, k
  {
    if k == 0 then []
    else NestedExecuted(limits, b, t, k - 1) + Executed(limits, AttemptNested(limits, b, t, k - 1), t.nested[k - 1])
  }

  /** The single, run-wide guard. */
  class ExecutionRecursionDecorator {
    const limits: Limits
    var recursionLevel: int
    var parentExecutionFuncs: seq<Base>
    var executionFuncs: set<Base>
    var executionCount: int

    function State(): Budget
      reads this
    {
      Budget(recursionLevel, parentExecutionFuncs, executionFuncs, executionCount)
    }

    ghost predicate Valid()
      reads this
    {
      Balanced(State())
    }

    constructor (limits: Limits)
      ensures this.limits == limits && State() == Initial && Valid()
    {
      this.limits := limits;
      recursionLevel := 0;
      parentExecutionFuncs := [];
      executionFuncs := {};
      executionCount := 0;
    }

    /** `reset`: back to the state of a fresh run. */
    method Reset()
      modifies this
      ensures State() == Initial && Valid()
    {
      recursionLevel := 0;
      parentExecutionFuncs := [];
      executionFuncs := {};
      executionCount := 0;
    }

    /** `check_recursion`: records the attempt, then answers whether to refuse it. */
    method CheckRecursion(execution: Execution, evaluateGenerator: bool) returns (reject: bool)
      modifies this
      ensures State() == Record(old(State()), execution)
      ensures reject == Rejects(limits, old(State()), execution, evaluateGenerator)
      ensures old(Valid()) ==> Valid()
    {
      var inParExecutionFuncs := execution.base in parentExecutionFuncs;
      var inExecutionFuncs := execution.base in executionFuncs;
      recursionLevel := recursionLevel + 1;
      executionCount := executionCount + 1;
      executionFuncs := executionFuncs + {execution.base};
      parentExecutionFuncs := parentExecutionFuncs + [execution.base];

      if executionCount > limits.maxExecutions {
        return true;
      }
      if execution.base.isGeneratorOrArray {
        return false;
      }
      var owner := execution.owner;
      if evaluateGenerator || owner == BuiltinScope {
        return false;
      }
      if inParExecutionFuncs {
        if recursionLevel > limits.maxFunctionRecursionLevel {
          return true;
        }
      }
      if inExecutionFuncs && |executionFuncs| > limits.maxUntilExecutionUnique {
        return true;
      }
      if executionCount > limits.maxExecutionsWithoutBuiltins {
        return true;
      }
      return false;
    }

    /** `cleanup`: pops the path and lowers the depth. */
    method Cleanup()
      requires |parentExecutionFuncs| > 0
      modifies this
      ensures State() == Unwind(old(State()))
      ensures old(Valid()) ==> Valid()
    {
      parentExecutionFuncs := parentExecutionFuncs[..|parentExecutionFuncs| - 1];
      recursionLevel := recursionLevel - 1;
    }

    /** `__call__`: refused attempts answer the empty list without running the
        wrapped evaluation; the bookkeeping is undone by `cleanup` either way.
        `executed` lists the executions whose wrapped evaluation ran. */
    method Call(t: ExecutionCall) returns (result: seq<TypeId>, ghost executed: seq<Execution>)
      requires Valid()
      modifies this
      ensures Valid()
      ensures State() == Attempt(limits, old(State()), t)
      ensures result == if Rejects(limits, old(State()), t.execution, t.evaluateGenerator) then [] else t.result
      ensures executed == Executed(limits, old(State()), t)
      decreases t
    {
      ghost var before := State();
      var reject := CheckRecursion(t.execution, t.evaluateGenerator);
      ghost var entered := State();
      if reject {
        result := [];
        executed := [];
      } else {
        // the wrapped evaluation: its own guarded attempts, then its result
        ghost var nestedExecuted: seq<Execution> := [];
        var i := 0;
        while i < |t.nested|
          invariant 0 <= i <= |t.nested|
          invariant Valid()
          invariant State() == AttemptNested(limits, entered, t, i)
          invariant nestedExecuted == NestedExecuted(limits, entered, t, i)
        {
          var inner: seq<TypeId>;
          ghost var innerExecuted: seq<Execution>;
          inner, innerExecuted := Call(t.nested[i]);
          nestedExecuted := nestedExecuted + innerExecuted;
          i := i + 1;
        }
        result := t.result;
        executed := [t.execution] + nestedExecuted;
      }
      ghost var done := State();
      assert done == if reject then entered else AttemptNested(limits, entered, t, |t.nested|);
      Cleanup();
      assert State() == Unwind(done);
    }
  }
}
