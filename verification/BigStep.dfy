/** What a statement may do when it runs: a big-step relation in which every
    condition that is not a literal may come out either way and every opaque
    piece of code may throw or exit. It follows the jump labels of the code
    generator: a switch is a jump target for both `break` and `continue`, and
    its default arm comes last (src/codegen/stmt/control_flow). */
module BigStep {
  import opened Prelude
  import opened Ast
  import opened Termination

  datatype Evaluation = Value(truthy: bool) | Throws | Exits

  datatype Outcome = Normal | Brk(n: Level) | Cont(n: Level) | Returned | Thrown | Exited

  // ----- expressions -----

  predicate Evaluates(e: Expr, r: Evaluation)
    decreases e, 0
  {
    match e
    case BoolLiteral(b) => r == Value(b)
    case IntLiteral(n) => r == Value(n != 0)
    case FloatLiteral(bits) => r == Value(!FloatIsZero(bits))
    case StringLiteral(s) => r == Value(s != "" && s != "0")
    case Null => r == Value(false)
    case ErrorSuppress(inner) => Evaluates(inner, r)
    case ThrowExpr(inner) =>
      (match r
       case Value(_) => false
       case Throws => Evaluates(inner, Throws) || Completes(inner)
       case Exits => Evaluates(inner, Exits))
    case FunctionCall(name, _) => IsExitName(name.text) ==> !r.Value?
    case _ => true
  }

  predicate Completes(e: Expr)
    decreases e, 1
  {
    Evaluates(e, Value(true)) || Evaluates(e, Value(false))
  }

  /** The outcomes in which evaluating `e` does not produce a value. */
  function AbruptEvaluations(e: Expr): set<Outcome> {
    (if Evaluates(e, Throws) then {Thrown} else {}) + (if Evaluates(e, Exits) then {Exited} else {})
  }

  predicate TestPasses(test: Option<Expr>) {
    test.None? || Evaluates(test.value, Value(true))
  }

  predicate TestFails(test: Option<Expr>) {
    test.Some? && Evaluates(test.value, Value(false))
  }

  function AbruptTests(test: Option<Expr>): set<Outcome> {
    if test.None? then {} else AbruptEvaluations(test.value)
  }

  // ----- loops and switches as jump targets -----

  datatype Resumption = Again | Leave(outcome: Outcome)

  /** What a loop does with the outcome of one run of its body. */
  function Resume(o: Outcome): Resumption {
    match o
    case Normal => Again
    case Cont(n) => if n == 1 then Again else Leave(Cont(n - 1))
    case Brk(n) => if n == 1 then Leave(Normal) else Leave(Brk(n - 1))
    case _ => Leave(o)
  }

  /** What a switch does with the outcome of its arms. */
  function LeaveSwitch(o: Outcome): Outcome {
    match Resume(o)
    case Again => Normal
    case Leave(o') => o'
  }

  predicate IsLoop(s: Stmt) {
    s.While? || s.DoWhile? || s.For? || s.Foreach?
  }

  /** The loop's test; a `foreach` is tested by its iterator. */
  function LoopTest(s: Stmt): Option<Expr>
    requires IsLoop(s)
  {
    match s
    case While(cond, _) => Some(cond)
    case DoWhile(_, cond) => Some(cond)
    case For(_, test, _, _) => test
    case Foreach(_, _) => Some(OtherExpr(0))
  }

  // ----- statements -----

  // Below, `passes` bounds how often one entry into a loop evaluates its test.

  ghost predicate BlockRuns(stmts: Block, passes: nat, o: Outcome)
    decreases stmts, 0
  {
    if stmts == [] then o == Normal
    else
      || (o != Normal && StmtRuns(stmts[0], passes, o))
      || (StmtRuns(stmts[0], passes, Normal) && BlockRuns(stmts[1..], passes, o))
  }

  ghost predicate OptBlockRuns(block: OptBlock, passes: nat, o: Outcome)
    decreases block, 1
  {
    if block.NoBody? then o == Normal else BlockRuns(block.stmts, passes, o)
  }

  /** The clauses from the i-th on of an `if`, then its `else`. */
  ghost predicate ElseifsRun(s: Stmt, i: nat, passes: nat, o: Outcome)
    requires s.If? && i <= |s.elseifs|
    decreases s, 0, |s.elseifs| - i
  {
    if i == |s.elseifs| then OptBlockRuns(s.elseBody, passes, o)
    else
      || o in AbruptEvaluations(Guard(s.elseifs[i]))
      || (Evaluates(Guard(s.elseifs[i]), Value(true)) && BlockRuns(s.elseifs[i].body, passes, o))
      || (Evaluates(Guard(s.elseifs[i]), Value(false)) && ElseifsRun(s, i + 1, passes, o))
  }

  /** The arms of a switch from the i-th on, falling through to the default. */
  ghost predicate ArmsRun(s: Stmt, i: nat, passes: nat, o: Outcome)
    requires s.Switch? && i <= |s.cases|
    decreases s, 0, |s.cases| - i
  {
    if i == |s.cases| then OptBlockRuns(s.default, passes, o)
    else
      || (o != Normal && BlockRuns(s.cases[i].body, passes, o))
      || (BlockRuns(s.cases[i].body, passes, Normal) && ArmsRun(s, i + 1, passes, o))
  }

  /** Entering a switch at the i-th arm or a later one. */
  ghost predicate EntryRuns(s: Stmt, i: nat, passes: nat, o: Outcome)
    requires s.Switch? && i <= |s.cases|
    decreases s, 1, |s.cases| - i
  {
    ArmsRun(s, i, passes, o) || (i < |s.cases| && EntryRuns(s, i + 1, passes, o))
  }

  /** At the test of a loop, with at most n more evaluations of it. */
  ghost predicate LoopRuns(s: Stmt, n: nat, passes: nat, o: Outcome)
    requires IsLoop(s)
    decreases s, 0, n, 0
  {
    && n > 0
    && (|| o in AbruptTests(LoopTest(s))
        || (o == Normal && TestFails(LoopTest(s)))
        || (TestPasses(LoopTest(s)) && BodyRuns(s, n - 1, passes, o)))
  }

  /** At the body of a loop. */
  ghost predicate BodyRuns(s: Stmt, n: nat, passes: nat, o: Outcome)
    requires IsLoop(s)
    decreases s, 0, n, 2
  {
    exists b :: BlockRuns(s.body, passes, b) &&
                match Resume(b)
                case Leave(o') => o == o'
                case Again => UpdateRuns(s, n, passes, o)
  }

  /** Between the body of a loop and its next test. */
  ghost predicate UpdateRuns(s: Stmt, n: nat, passes: nat, o: Outcome)
    requires IsLoop(s)
    decreases s, 0, n, 1
  {
    if s.For? && s.update.Some? then
      || (o != Normal && StmtRuns(s.update.value, passes, o))
      || (StmtRuns(s.update.value, passes, Normal) && LoopRuns(s, n, passes, o))
    else LoopRuns(s, n, passes, o)
  }

  /** The statements guarded by a `finally`. */
  ghost predicate GuardedRuns(s: Stmt, passes: nat, o: Outcome)
    requires s.Try?
    decreases s, 0
  {
    || BlockRuns(s.tryBody, passes, o)
    || (BlockRuns(s.tryBody, passes, Thrown) && exists c :: c in s.catches && BlockRuns(c.body, passes, o))
  }

  /** An exit is the one outcome that skips `finally`. */
  predicate EntersFinally(o: Outcome) {
    o != Exited
  }

  /** Control reaches the `finally` body. */
  ghost predicate FinallyEntered(s: Stmt, passes: nat)
    requires s.Try?
    decreases s, 1
  {
    exists g :: EntersFinally(g) && GuardedRuns(s, passes, g)
  }

  ghost predicate StmtRuns(s: Stmt, passes: nat, o: Outcome)
    decreases s, 2
  {
    match s
    case Return(result) =>
      if result.None? then o == Returned
      else o in AbruptEvaluations(result.value) || (o == Returned && Completes(result.value))
    case Throw(e) => o in AbruptEvaluations(e) || (o == Thrown && Completes(e))
    case Break(levels) => o == Brk(levels)
    case Continue(levels) => o == Cont(levels)
    case ExprStmt(e) => o in AbruptEvaluations(e) || (o == Normal && Completes(e))
    case Synthetic(body) => BlockRuns(body, passes, o)
    case NamespaceBlock(_, body) => BlockRuns(body, passes, o)
    case IncludeOnceGuard(body) => o == Normal || BlockRuns(body, passes, o)
    case If(cond, thenBody, _, _) =>
      || o in AbruptEvaluations(cond)
      || (Evaluates(cond, Value(true)) && BlockRuns(thenBody, passes, o))
      || (Evaluates(cond, Value(false)) && ElseifsRun(s, 0, passes, o))
    case IfDef(thenBody, elseBody) => BlockRuns(thenBody, passes, o) || OptBlockRuns(elseBody, passes, o)
    case While(_, _) => LoopRuns(s, passes, passes, o)
    case DoWhile(_, _) => BodyRuns(s, passes, passes, o)
    case For(init, _, _, _) =>
      || (init.Some? && o != Normal && StmtRuns(init.value, passes, o))
      || ((init.None? || StmtRuns(init.value, passes, Normal)) && LoopRuns(s, passes, passes, o))
    case Foreach(subject, _) =>
      || o in AbruptEvaluations(subject)
      || (Completes(subject) && LoopRuns(s, passes, passes, o))
    case Switch(_, _, default) =>
      || o in {Thrown, Exited}                                    // subject and case labels
      || (o == Normal && default.NoBody?)                         // no arm selected
      || exists b :: EntryRuns(s, 0, passes, b) && o == LeaveSwitch(b)
    case Try(_, _, finallyBody) =>
      if finallyBody.NoBody? then GuardedRuns(s, passes, o)
      else
        || (o == Exited && GuardedRuns(s, passes, Exited))
        || (o != Normal && BlockRuns(finallyBody.stmts, passes, o) && FinallyEntered(s, passes))
        || (o != Exited && GuardedRuns(s, passes, o) && BlockRuns(finallyBody.stmts, passes, Normal))
    case _ => o in {Normal, Thrown, Exited}
  }

  /** `s` has a finite run that ends in `o`. */
  ghost predicate Runs(s: Stmt, o: Outcome) {
    exists passes: nat :: StmtRuns(s, passes, o)
  }

  ghost predicate RunsBlock(stmts: Block, o: Outcome) {
    exists passes: nat :: BlockRuns(stmts, passes, o)
  }
}
