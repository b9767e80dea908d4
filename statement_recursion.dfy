/** The statement cycle guard: `RecursionDecorator` keeps a chain of
    `RecursionNode`s, one per statement evaluation in progress, and refuses to
    evaluate a statement whose node equals one of its ancestors. */
module StatementRecursion {
  import opened Analysis

  /** A node for `s` never takes part in cycle detection: parameters and
      statements of the builtin scope. */
  predicate Ignored(s: Stmt) {
    s.isParam || s.script == BuiltinScope
  }

  /** Node equality, stated on the statements the nodes were built from: same
      script, same position, and neither node ignored. */
  predicate Clash(a: Stmt, b: Stmt) {
    a.script == b.script && a.startPos == b.startPos && !Ignored(a) && !Ignored(b)
  }

  /** The chain (outermost first) ends in a statement that clashes with one of
      the statements above it. */
  ghost predicate HasCycle(chain: seq<Stmt>) {
    |chain| > 0 && exists i :: 0 <= i < |chain| - 1 && Clash(chain[|chain| - 1], chain[i])
  }

  /** No two statements of the chain clash. */
  ghost predicate CycleFree(chain: seq<Stmt>) {
    forall i, j :: 0 <= i < j < |chain| ==> !Clash(chain[i], chain[j])
  }

  /** One statement evaluation in progress, linked to the one that started it.
      Every field is fixed when the node is made. */
  class RecursionNode {
    const stmt: Stmt
    const script: ScriptId
    const position: Position
    const isIgnored: bool
    const parent: RecursionNode?
    /** The nodes above this one, outermost first. */
    ghost const ancestors: seq<RecursionNode>

    /** The fields agree with the statement, and the parent links form a finite
        chain whose nodes are all well formed. */
    ghost predicate Valid()
      decreases |ancestors|
    {
      && script == stmt.script
      && position == stmt.startPos
      && isIgnored == Ignored(stmt)
      && (parent == null ==> ancestors == [])
      && (parent != null ==> ancestors == parent.ancestors + [parent] && parent.Valid())
    }

    constructor (stmt: Stmt, parent: RecursionNode?)
      requires parent != null ==> parent.Valid()
      ensures Valid() && this.stmt == stmt && this.parent == parent
    {
      this.script := stmt.script;
      this.position := stmt.startPos;
      this.parent := parent;
      this.stmt := stmt;
      this.isIgnored := stmt.isParam || stmt.script == BuiltinScope;
      this.ancestors := if parent == null then [] else parent.ancestors + [parent];
    }

    /** `__eq__`: a missing node equals nothing; otherwise the nodes are equal
        exactly when their statements clash. */
    predicate Equals(other: RecursionNode?)
      requires Valid() && (other != null ==> other.Valid())
      ensures Equals(other) <==> other != null && Clash(stmt, other.stmt)
    {
      if other == null then false
      else script == other.script && position == other.position && !isIgnored && !other.isIgnored
    }
  }

  /** The statements of the chain ending in `n`, outermost first. */
  ghost function ChainOf(n: RecursionNode?): (c: seq<Stmt>)
    requires n != null ==> n.Valid()
    ensures n == null ==> c == []
    ensures n != null ==> |c| == |n.ancestors| + 1 && c[|c| - 1] == n.stmt
    ensures n != null ==> forall i :: 0 <= i < |n.ancestors| ==> c[i] == n.ancestors[i].stmt
    decreases if n == null then 0 else |n.ancestors| + 1
  {
    if n == null then [] else ChainOf(n.parent) + [n.stmt]
  }

  /** A statement evaluation as the guard sees it: evaluating `stmt` makes the
      `nested` guarded evaluations in order and then yields `result`. */
  datatype Evaluation = Evaluation(stmt: Stmt, nested: seq<Evaluation>, result: seq<TypeId>)

  /** The statements whose wrapped evaluation runs, in order, when `e` is
      evaluated through the guard while `chain` is active. */
  ghost function Invoked(chain: seq<Stmt>, e: Evaluation): seq<Stmt>
    decreases e, 1
  {
    if HasCycle(chain + [e.stmt]) then []
    else [e.stmt] + NestedInvoked(chain + [e.stmt], e, |e.nested|)
  }

  /** The same for the first `k` nested evaluations of `e`. */
  ghost function NestedInvoked(chain: seq<Stmt>, e: Evaluation, k: nat): seq<Stmt>
    requires k <= |e.nested|
    decreases e, 0, k
  {
    if k == 0 then []
    else NestedInvoked(chain, e, k - 1) + Invoked(chain, e.nested[k - 1])
  }

  lemma CycleFreeExtend(chain: seq<Stmt>, s: Stmt)
    requires CycleFree(chain) && !HasCycle(chain + [s])
    ensures CycleFree(chain + [s])
  {
    var c := chain + [s];
    forall i, j | 0 <= i < j < |c| ensures !Clash(c[i], c[j]) {
      if j == |chain| {
        assert !Clash(c[|c| - 1], c[i]);
      }
    }
  }

  /** The decorator's state: the innermost node of the active chain. */
  class RecursionDecorator {
    var current: RecursionNode?

    /** The chain is well formed, and no two of its statements clash: a
        statement is only pushed for good when it clashes with no ancestor. */
    ghost predicate Valid()
      reads this
    {
      (current != null ==> current.Valid()) && CycleFree(ChainOf(current))
    }

    /** The active chain's statements, outermost first. */
    ghost function Chain(): seq<Stmt>
      reads this
      requires Valid()
    {
      ChainOf(current)
    }

    constructor ()
      ensures Valid() && current == null
    {
      current := null;
    }

    /** `reset`: the chain becomes empty. */
    method Reset()
      modifies this
      ensures Valid() && current == null && Chain() == []
    {
      current := null;
    }

    /** `push_stmt`: links a new node for `stmt`; if it closes a cycle the node is
        unlinked again and the answer is true. */
    method PushStmt(stmt: Stmt) returns (recursion: bool)
      requires Valid()
      modifies this
      ensures Valid()
      ensures recursion <==> HasCycle(old(Chain()) + [stmt])
      ensures recursion ==> current == old(current)
      ensures !recursion ==> current != null && fresh(current)
      ensures !recursion ==> current.parent == old(current) && current.stmt == stmt
      ensures !recursion ==> Chain() == old(Chain()) + [stmt]
    {
      ghost var chain := Chain();
      current := new RecursionNode(stmt, current);
      assert ChainOf(current) == chain + [stmt];
      recursion := CheckRecursion();
      if recursion {
        PopStmt();
        return true;
      }
      CycleFreeExtend(chain, stmt);
      return false;
    }

    /** `pop_stmt`: unlinks the innermost node; on an empty chain it does nothing. */
    method PopStmt()
      requires current != null ==> current.Valid()
      modifies this
      ensures old(current) == null ==> current == null
      ensures old(current) != null ==> current == old(current).parent
      ensures current != null ==> current.Valid()
      ensures ChainOf(current) == if old(current) == null then [] else ChainOf(old(current))[..|ChainOf(old(current))| - 1]
    {
      if current != null {
        current := current.parent;
      }
    }

    /** `_check_recursion`: walks from the parent of the innermost node to the
        root and answers whether any of them equals the innermost node. */
    method CheckRecursion() returns (r: bool)
      requires current != null && current.Valid()
      ensures r <==> HasCycle(ChainOf(current))
    {
      ghost var chain := ChainOf(current);
      var test := current;
      while true
        invariant test != null && test.Valid()
        invariant |ChainOf(test)| <= |chain| && ChainOf(test) == chain[..|ChainOf(test)|]
        invariant forall i :: |ChainOf(test)| - 1 <= i < |chain| - 1 ==> !Clash(chain[|chain| - 1], chain[i])
        decreases |test.ancestors|
      {
        ghost var k := |ChainOf(test)|;
        test := test.parent;
        if current.Equals(test) {
          assert ChainOf(test) == chain[..k - 1];
          assert Clash(chain[|chain| - 1], chain[k - 2]);
          return true;
        }
        if test == null {
          return false;
        }
        assert ChainOf(test) == chain[..k - 1];
        assert !Clash(chain[|chain| - 1], chain[k - 2]);
      }
    }

    /** `node_statements`: the statements of the active chain, outermost first. */
    method NodeStatements() returns (result: seq<Stmt>)
      requires current != null ==> current.Valid()
      ensures result == ChainOf(current)
      ensures current != null ==> |result| == |current.ancestors| + 1
      ensures current == null ==> result == []
    {
      result := [];
      var n := current;
      while n != null
        invariant n != null ==> n.Valid()
        invariant ChainOf(n) + result == ChainOf(current)
        decreases if n == null then 0 else |n.ancestors| + 1
      {
        result := [n.stmt] + result;
        n := n.parent;
      }
    }

    /** `__call__`: evaluates `e.stmt` unless that closes a cycle, in which case
        the answer is empty and the wrapped evaluation does not run. Either way
        the chain is as it was before. `invoked` lists the statements whose
        wrapped evaluation ran. */
    method Call(e: Evaluation) returns (result: seq<TypeId>, ghost invoked: seq<Stmt>)
      requires Valid()
      modifies this
      ensures Valid() && current == old(current)
      ensures result == if HasCycle(old(Chain()) + [e.stmt]) then [] else e.result
      ensures invoked == Invoked(old(Chain()), e)
      decreases e
    {
      ghost var chain := Chain();
      var recursion := PushStmt(e.stmt);
      if recursion {
        return [], [];
      }
      // the wrapped evaluation: its own guarded evaluations, then its result
      ghost var frame := current;
      ghost var nestedInvoked: seq<Stmt> := [];
      var i := 0;
      while i < |e.nested|
        invariant 0 <= i <= |e.nested|
        invariant Valid() && current == frame && Chain() == chain + [e.stmt]
        invariant nestedInvoked == NestedInvoked(chain + [e.stmt], e, i)
      {
        var inner: seq<TypeId>;
        ghost var innerInvoked: seq<Stmt>;
        inner, innerInvoked := Call(e.nested[i]);
        nestedInvoked := nestedInvoked + innerInvoked;
        i := i + 1;
      }
      invoked := [e.stmt] + nestedInvoked;
      result := e.result;
      PopStmt();
    }
  }
}
