/** What the symbolic interpreter does fold: it gives up only where a run meets something that is
    not supported, or would if it did not stop at `&&` and `||`. */
module InterpretComplete {
  import opened Prelude
  import opened Ast
  import opened Names
  import opened Interpret
  import opened InterpretSound

  // ----- expressions -----

  predicate PassesAll(exprs: seq<Expr>)
    decreases exprs
  {
    exprs == [] || (Passes(exprs[0]) && PassesAll(exprs[1..]))
  }

  /** Every call passes as many arguments as it can be documented with. */
  predicate Passes(e: Expr)
    decreases e
  {
    match e
    case BinaryOp(left, _, right) => Passes(left) && Passes(right)
    case Not(inner) => Passes(inner)
    case CastString(inner) => Passes(inner)
    case FunctionCall(callee, args) => Documented(TrimBackslashes(callee.text), |args|) && PassesAll(args)
    case _ => true
  }

  predicate YieldsAll(exprs: seq<Expr>, vars: Vars, builtins: Builtins)
    decreases exprs
  {
    exprs == [] || (YieldsThroughout(exprs[0], vars, builtins) && YieldsAll(exprs[1..], vars, builtins))
  }

  /** Evaluated where everything unsupported goes astray, the expression yields a value, and so
      does every operand, also one that a run would skip. */
  predicate YieldsThroughout(e: Expr, vars: Vars, builtins: Builtins)
    decreases e
  {
    && RunExpr(e, vars, 0, Straying(builtins)).0.Yields?
    && match e
       case BinaryOp(left, _, right) =>
         YieldsThroughout(left, vars, builtins) && YieldsThroughout(right, vars, builtins)
       case Not(inner) => YieldsThroughout(inner, vars, builtins)
       case CastString(inner) => YieldsThroughout(inner, vars, builtins)
       case FunctionCall(_, args) => YieldsAll(args, vars, builtins)
       case _ => true
  }

  lemma {:induction false} PassesClean(e: Expr, vars: Vars, builtins: Builtins)
    requires Passes(e)
    ensures Clean(e, vars, builtins)
    decreases e
  {
    match e
    case BinaryOp(left, _, right) =>
      PassesClean(left, vars, builtins);
      PassesClean(right, vars, builtins);
    case Not(inner) => PassesClean(inner, vars, builtins);
    case CastString(inner) => PassesClean(inner, vars, builtins);
    case FunctionCall(_, args) => PassesCleanAll(args, vars, builtins);
    case _ =>
  }

  lemma {:induction false} PassesCleanAll(exprs: seq<Expr>, vars: Vars, builtins: Builtins)
    requires PassesAll(exprs)
    ensures CleanAll(exprs, vars, builtins)
    decreases exprs
  {
    if exprs != [] {
      PassesClean(exprs[0], vars, builtins);
      PassesCleanAll(exprs[1..], vars, builtins);
    }
  }

  lemma {:induction false} AllFolded(exprs: seq<Expr>, vars: Vars, builtins: Builtins)
    requires PassesAll(exprs)
    ensures EvalFirst(exprs, |exprs|, vars, builtins).Some? <==> YieldsAll(exprs, vars, builtins)
    decreases exprs
  {
    if exprs != [] {
      FoldedExactly(exprs[0], vars, builtins);
      AllFolded(exprs[1..], vars, builtins);
    }
  }

  lemma SharesOwn(builtins: Builtins)
    ensures SharesEquality(Straying(builtins)) && Straying(builtins).builtins == builtins
  {
  }

  /** An expression is folded exactly if it yields a value throughout, and then to that value. */
  lemma {:induction false} FoldedExactly(e: Expr, vars: Vars, builtins: Builtins)
    requires Passes(e)
    ensures Eval(e, vars, builtins).Some? <==> YieldsThroughout(e, vars, builtins)
    ensures Eval(e, vars, builtins).Some? ==>
              RunExpr(e, vars, 0, Straying(builtins)) == (Yields(Eval(e, vars, builtins).value, vars), 0)
    decreases e
  {
    SharesOwn(builtins);
    if Eval(e, vars, builtins).Some? {
      PassesClean(e, vars, builtins);
      EvalSound(e, vars, 0, Straying(builtins));
    }
    match e
    case BinaryOp(left, op, right) =>
      FoldedExactly(left, vars, builtins);
      FoldedExactly(right, vars, builtins);
      if Eval(left, vars, builtins).Some? && Eval(right, vars, builtins).Some? && !op.OtherOp? {
        OperateExact(op, Eval(left, vars, builtins).value, Eval(right, vars, builtins).value, Straying(builtins));
      }
    case Not(inner) => FoldedExactly(inner, vars, builtins);
    case CastString(inner) => FoldedExactly(inner, vars, builtins);
    case FunctionCall(callee, args) =>
      AllFolded(args, vars, builtins);
      ArgumentsReadExact(TrimBackslashes(callee.text), |args|);
      if EvalFirst(args, |args|, vars, builtins).Some? {
        PassesCleanAll(args, vars, builtins);
        EvalFirstSound(args, vars, 0, Straying(builtins));
      }
    case _ =>
  }

  // ----- closures -----

  predicate PassesBlock(stmts: Block)
    decreases stmts
  {
    stmts == [] || (PassesStmt(stmts[0]) && PassesBlock(stmts[1..]))
  }

  predicate PassesClauses(clauses: seq<Clause>)
    decreases clauses
  {
    clauses == [] || (Passes(Guard(clauses[0])) && PassesBlock(clauses[0].body) && PassesClauses(clauses[1..]))
  }

  predicate PassesStmt(s: Stmt)
    decreases s
  {
    match s
    case Assign(_, value) => Passes(value)
    case ExprStmt(e) => Passes(e)
    case Include(path) => Passes(path)
    case If(cond, thenBody, elseifs, elseBody) =>
      && Passes(cond) && PassesBlock(thenBody) && PassesClauses(elseifs)
      && (elseBody.Body? ==> PassesBlock(elseBody.stmts))
    case Synthetic(body) => PassesBlock(body)
    case _ => true
  }

  lemma {:induction false} ClausePasses(clauses: seq<Clause>, i: nat)
    requires PassesClauses(clauses) && i < |clauses|
    ensures Passes(Guard(clauses[i])) && PassesBlock(clauses[i].body)
  {
    if i > 0 {
      ClausePasses(clauses[1..], i - 1);
    }
  }

  predicate FoldableBlock(stmts: Block, vars: Vars, builtins: Builtins)
    decreases stmts, 0
  {
    stmts == []
    || (&& FoldableStmt(stmts[0], vars, builtins)
        && var first := RunStmt(stmts[0], vars, 0, Straying(builtins)).0;
           first.Completes? ==> FoldableBlock(stmts[1..], first.vars, builtins))
  }

  predicate FoldableElseifs(s: Stmt, i: nat, vars: Vars, builtins: Builtins)
    requires s.If? && i <= |s.elseifs|
    decreases s, 0, |s.elseifs| - i
  {
    if i == |s.elseifs| then s.elseBody.Body? ==> FoldableBlock(s.elseBody.stmts, vars, builtins)
    else
      && YieldsThroughout(Guard(s.elseifs[i]), vars, builtins)
      && if IsTrue(RunExpr(Guard(s.elseifs[i]), vars, 0, Straying(builtins)).0.v)
         then FoldableBlock(s.elseifs[i].body, vars, builtins) else FoldableElseifs(s, i + 1, vars, builtins)
  }

  /** Whatever the run meets on its way is supported: assignments, conditions and includes of
      expressions that yield throughout, and `return`. */
  predicate FoldableStmt(s: Stmt, vars: Vars, builtins: Builtins)
    decreases s, 1
  {
    match s
    case Assign(_, value) => YieldsThroughout(value, vars, builtins)
    case ExprStmt(e) => YieldsThroughout(e, vars, builtins)
    case Include(path) =>
      YieldsThroughout(path, vars, builtins) && RunExpr(path, vars, 0, Straying(builtins)).0.v.Str?
    case If(cond, thenBody, _, _) =>
      && YieldsThroughout(cond, vars, builtins)
      && (if IsTrue(RunExpr(cond, vars, 0, Straying(builtins)).0.v)
          then FoldableBlock(thenBody, vars, builtins) else FoldableElseifs(s, 0, vars, builtins))
    case Return(_) => true
    case Synthetic(body) => FoldableBlock(body, vars, builtins)
    case _ => false
  }

  /** Folding succeeds exactly if everything met is supported, and goes as the run does. */
  ghost predicate Faithful(flow: (Flow, Vars), foldable: bool, run: (Ending, nat)) {
    && (flow.0 != Unfoldable <==> foldable)
    && (flow.0.Proceed? ==> run == (Completes(flow.1), 0))
    && (flow.0.Includes? ==> run == (Reaches(flow.0.path), 0))
    && (flow.0.Returns? ==> run.0.ReturnsFrom? || run.0.Strays?)
  }

  lemma {:induction false} BlockFaithful(stmts: Block, vars: Vars, builtins: Builtins)
    requires PassesBlock(stmts)
    ensures Faithful(ExecutedBlock(stmts, vars, builtins), FoldableBlock(stmts, vars, builtins),
                     RunBlock(stmts, vars, 0, Straying(builtins)))
    decreases stmts, 0
  {
    if stmts != [] {
      StmtFaithful(stmts[0], vars, builtins);
      var (flow, vars') := Executed(stmts[0], vars, builtins);
      if flow.Proceed? {
        BlockFaithful(stmts[1..], vars', builtins);
      }
    }
  }

  lemma {:induction false} ElseifsFaithful(s: Stmt, i: nat, vars: Vars, builtins: Builtins)
    requires s.If? && PassesStmt(s) && i <= |s.elseifs|
    ensures Faithful(ExecutedElseifs(s, i, vars, builtins), FoldableElseifs(s, i, vars, builtins),
                     RunElseifs(s, i, vars, 0, Straying(builtins)))
    decreases s, 0, |s.elseifs| - i
  {
    if i == |s.elseifs| {
      if s.elseBody.Body? {
        BlockFaithful(s.elseBody.stmts, vars, builtins);
      }
    } else {
      ClausePasses(s.elseifs, i);
      var guard := Guard(s.elseifs[i]);
      FoldedExactly(guard, vars, builtins);
      if Eval(guard, vars, builtins).Some? {
        TruthExact(Eval(guard, vars, builtins).value);
        BlockFaithful(s.elseifs[i].body, vars, builtins);
        ElseifsFaithful(s, i + 1, vars, builtins);
      }
    }
  }

  lemma {:induction false} StmtFaithful(s: Stmt, vars: Vars, builtins: Builtins)
    requires PassesStmt(s)
    ensures Faithful(Executed(s, vars, builtins), FoldableStmt(s, vars, builtins),
                     RunStmt(s, vars, 0, Straying(builtins)))
    decreases s, 1
  {
    match s
    case Assign(_, value) => FoldedExactly(value, vars, builtins);
    case ExprStmt(e) => FoldedExactly(e, vars, builtins);
    case Include(path) => FoldedExactly(path, vars, builtins);
    case If(cond, thenBody, _, _) =>
      FoldedExactly(cond, vars, builtins);
      if Eval(cond, vars, builtins).Some? {
        TruthExact(Eval(cond, vars, builtins).value);
        BlockFaithful(thenBody, vars, builtins);
        ElseifsFaithful(s, 0, vars, builtins);
      }
    case Synthetic(body) => BlockFaithful(body, vars, builtins);
    case _ =>
  }

  /** A rule resolves a class to a path exactly if a run reaches an include of that path and
      meets nothing unsupported on the way. */
  lemma ResolvedExactly(rule: Rule, className: string, builtins: Builtins, path: string)
    requires PassesBlock(rule.body)
    ensures Resolution(rule, className, builtins) == Some(path)
            <==> && FoldableBlock(rule.body, Argument(rule, className), builtins)
                 && RunBlock(rule.body, Argument(rule, className), 0, Straying(builtins)).0 == Reaches(path)
  {
    BlockFaithful(rule.body, Argument(rule, className), builtins);
    hide ExecutedBlock, RunBlock, FoldableBlock;
  }

  // ----- the usual closure -----

  /** `function ($c) { include "prefix" . $c . "suffix"; }` */
  function Including(param: string, prefix: string, suffix: string): Rule {
    Rule(param, [Include(BinaryOp(BinaryOp(StringLiteral(prefix), Concat, Variable(param)), Concat,
                                  StringLiteral(suffix)))])
  }

  /** It resolves every class to the file of its name. */
  lemma IncludingResolves(param: string, prefix: string, suffix: string, className: string, builtins: Builtins)
    ensures Resolution(Including(param, prefix, suffix), className, builtins) == Some(prefix + className + suffix)
  {
    var rule := Including(param, prefix, suffix);
    var vars := Argument(rule, className);
    var path := rule.body[0].path;
    assert Eval(path.left, vars, builtins) == Some(Str(prefix + className, false));
    assert Eval(path, vars, builtins) == Some(Str(prefix + className + suffix, false));
    hide Eval;
    assert Executed(rule.body[0], vars, builtins).0 == Includes(prefix + className + suffix);
  }
}
