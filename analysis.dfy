/** The parts of jedi's parser and evaluator that the recursion guards consult,
    reduced to the facts the guards read from them.

    A statement is known by the script (top-level module) that contains it, its
    start position and whether it is a parameter; an execution by the callable it
    executes (its "base") and the module that owns it. How jedi computes these
    (`get_parent_until`, `isinstance` tests, the builtin scope object) is not part
    of this model: the answers are fields of the records below. */
module Analysis {

  /** Identity of a top-level scope (a parsed module). */
  type ScriptId = int

  /** The scope of the builtin-library model; every other value is user code. */
  const BuiltinScope: ScriptId := 0

  /** A source position: (line, column). */
  type Position = (int, int)

  /** A statement handed to the statement guard. */
  datatype Stmt = Stmt(script: ScriptId, startPos: Position, isParam: bool)

  /** The callable an execution runs; identity is the whole record, and the
      flag says whether it is a generator or an array object. */
  datatype Base = Base(identity: int, isGeneratorOrArray: bool)

  /** An execution handed to the execution guard, with the module that owns it. */
  datatype Execution = Execution(base: Base, owner: ScriptId)

  /** One inferred object in a result list; the guards only ever return a wrapped
      evaluation's list unchanged or the empty list. */
  type TypeId = int
}
