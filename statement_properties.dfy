/** What the statement cycle guard promises, stated over chains of statements and
    over whole guarded evaluations. */
module StatementProperties {
  import opened Analysis
  import opened StatementRecursion

  /** Node equality is symmetric and transitive, and a node equals one at its own
      place exactly when it is not ignored: an ignored node equals nothing. */
  lemma ClashIsPartialEquivalence(a: Stmt, b: Stmt, c: Stmt)
    ensures Clash(a, b) <==> Clash(b, a)
    ensures Clash(a, b) && Clash(b, c) ==> Clash(a, c)
    ensures Clash(a, a) <==> !Ignored(a)
    ensures Ignored(a) ==> !Clash(a, b) && !Clash(b, a)
  {
  }

  /** Pushing `s` onto `chain` closes a cycle exactly when some statement already
      on the chain clashes with `s`. */
  lemma CycleIffClashingAncestor(chain: seq<Stmt>, s: Stmt)
    ensures HasCycle(chain + [s]) <==> exists i :: 0 <= i < |chain| && Clash(s, chain[i])
  {
    var c := chain + [s];
    if exists i :: 0 <= i < |chain| && Clash(s, chain[i]) {
      var i :| 0 <= i < |chain| && Clash(s, chain[i]);
      assert c[|c| - 1] == s && c[i] == chain[i];
    }
    if HasCycle(c) {
      var i :| 0 <= i < |c| - 1 && Clash(c[|c| - 1], c[i]);
      assert c[i] == chain[i];
    }
  }

  /** The first statement of a chain, and any ignored statement, never closes a
      cycle. */
  lemma NoCycleWithoutAncestorOrWhenIgnored(chain: seq<Stmt>, s: Stmt)
    requires chain == [] || Ignored(s)
    ensures !HasCycle(chain + [s])
  {
    CycleIffClashingAncestor(chain, s);
  }

  /** A statement that clashes with one on the active chain is refused: whatever
      its evaluation would do, none of it runs. */
  lemma ReentryRefused(chain: seq<Stmt>, e: Evaluation, i: nat)
    requires i < |chain| && Clash(e.stmt, chain[i])
    ensures HasCycle(chain + [e.stmt])
    ensures Invoked(chain, e) == []
  {
    CycleIffClashingAncestor(chain, e.stmt);
  }

  /** Every statement of the evaluation tree is ignored. */
  ghost predicate AllIgnored(e: Evaluation)
    decreases e
  {
    Ignored(e.stmt) && forall i :: 0 <= i < |e.nested| ==> AllIgnored(e.nested[i])
  }

  /** The statements of the evaluation tree in the order they are reached. */
  ghost function Preorder(e: Evaluation): seq<Stmt>
    decreases e, 1
  {
    [e.stmt] + NestedPreorder(e, |e.nested|)
  }

  ghost function NestedPreorder(e: Evaluation, k: nat): seq<Stmt>
    requires k <= |e.nested|
    decreases e, 0, k
  {
    if k == 0 then [] else NestedPreorder(e, k - 1) + Preorder(e.nested[k - 1])
  }

  /** No statement of the evaluation tree clashes with an ancestor on its own
      path, the active chain included. */
  ghost predicate Acyclic(chain: seq<Stmt>, e: Evaluation)
    decreases e
  {
    && !HasCycle(chain + [e.stmt])
    && forall i :: 0 <= i < |e.nested| ==> Acyclic(chain + [e.stmt], e.nested[i])
  }

  /** No false positives: a tree in which no statement closes a cycle on its own
      path is evaluated completely, each statement once, in order. */
  lemma {:induction false} AcyclicAllInvoked(chain: seq<Stmt>, e: Evaluation)
    requires Acyclic(chain, e)
    ensures Invoked(chain, e) == Preorder(e)
    decreases e, 1
  {
    NestedAcyclicAllInvoked(chain + [e.stmt], e, |e.nested|);
  }

  lemma {:induction false} NestedAcyclicAllInvoked(chain: seq<Stmt>, e: Evaluation, k: nat)
    requires k <= |e.nested|
    requires forall i :: 0 <= i < |e.nested| ==> Acyclic(chain, e.nested[i])
    ensures NestedInvoked(chain, e, k) == NestedPreorder(e, k)
    decreases e, 0, k
  {
    if k > 0 {
      NestedAcyclicAllInvoked(chain, e, k - 1);
      AcyclicAllInvoked(chain, e.nested[k - 1]);
    }
  }

  /** The guard never evaluates more than the tree holds, and it evaluates all of
      it only when no statement closes a cycle: any refusal drops a statement. */
  lemma {:induction false} InvokedWithinPreorder(chain: seq<Stmt>, e: Evaluation)
    ensures |Invoked(chain, e)| <= |Preorder(e)|
    ensures |Invoked(chain, e)| == |Preorder(e)| ==> Acyclic(chain, e)
    decreases e, 1
  {
    if !HasCycle(chain + [e.stmt]) {
      NestedInvokedWithinPreorder(chain + [e.stmt], e, |e.nested|);
    }
  }

  lemma {:induction false} NestedInvokedWithinPreorder(chain: seq<Stmt>, e: Evaluation, k: nat)
    requires k <= |e.nested|
    ensures |NestedInvoked(chain, e, k)| <= |NestedPreorder(e, k)|
    ensures |NestedInvoked(chain, e, k)| == |NestedPreorder(e, k)| ==>
      forall i :: 0 <= i < k ==> Acyclic(chain, e.nested[i])
    decreases e, 0, k
  {
    if k > 0 {
      NestedInvokedWithinPreorder(chain, e, k - 1);
      InvokedWithinPreorder(chain, e.nested[k - 1]);
    }
  }

  /** Both directions: the whole tree is evaluated in order exactly when no
      statement of it closes a cycle. */
  lemma AllInvokedIffAcyclic(chain: seq<Stmt>, e: Evaluation)
    ensures Invoked(chain, e) == Preorder(e) <==> Acyclic(chain, e)
  {
    InvokedWithinPreorder(chain, e);
    if Acyclic(chain, e) {
      AcyclicAllInvoked(chain, e);
    }
  }

  /** A tree whose statements are all ignored closes no cycle, from any chain. */
  lemma {:induction false} AllIgnoredAcyclic(chain: seq<Stmt>, e: Evaluation)
    requires AllIgnored(e)
    ensures Acyclic(chain, e)
    decreases e
  {
    NoCycleWithoutAncestorOrWhenIgnored(chain, e.stmt);
    forall i | 0 <= i < |e.nested|
      ensures Acyclic(chain + [e.stmt], e.nested[i])
    {
      AllIgnoredAcyclic(chain + [e.stmt], e.nested[i]);
    }
  }

  /** Ignored statements never trip the guard, however deep they nest: every
      statement of an all-ignored evaluation tree is evaluated, in order. */
  lemma AllIgnoredAllInvoked(chain: seq<Stmt>, e: Evaluation)
    requires AllIgnored(e)
    ensures Invoked(chain, e) == Preorder(e)
  {
    AllIgnoredAcyclic(chain, e);
    AcyclicAllInvoked(chain, e);
  }

  /** An evaluation of `s` that directly re-evaluates `s`, `n` levels deep. */
  function Tower(s: Stmt, n: nat): Evaluation
  {
    if n == 0 then Evaluation(s, [], []) else Evaluation(s, [Tower(s, n - 1)], [])
  }

  /** Direct self-recursion through a statement that is not ignored is cut at the
      first re-entry: only the outermost evaluation runs. */
  lemma SelfRecursionRunsOnce(chain: seq<Stmt>, s: Stmt, n: nat)
    requires !Ignored(s) && !HasCycle(chain + [s])
    ensures Invoked(chain, Tower(s, n)) == [s]
  {
    if n > 0 {
      ReentryRefused(chain + [s], Tower(s, n - 1), |chain|);
      assert NestedInvoked(chain + [s], Tower(s, n), 1) == Invoked(chain + [s], Tower(s, n - 1));
    }
  }

  /** Self-recursion through an ignored statement is never cut by this guard:
      all `n + 1` levels run. */
  lemma {:induction false} IgnoredSelfRecursionRunsFully(chain: seq<Stmt>, s: Stmt, n: nat)
    requires Ignored(s)
    ensures Invoked(chain, Tower(s, n)) == seq(n + 1, _ => s)
    decreases n
  {
    NoCycleWithoutAncestorOrWhenIgnored(chain, s);
    if n > 0 {
      IgnoredSelfRecursionRunsFully(chain + [s], s, n - 1);
      assert NestedInvoked(chain + [s], Tower(s, n), 1) == Invoked(chain + [s], Tower(s, n - 1));
    }
  }
}
