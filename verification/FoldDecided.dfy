/** Which guards the flattening decides. */
module FoldDecided {
  import opened Prelude
  import opened Ast
  import opened Names
  import opened Interpret
  import opened InterpretSound
  import opened FoldIfs
  import opened Registration
  import opened RegistrationRun
  import opened RegistrationText
  import opened RegistrationQueue

  // ----- decided guards -----

  /** The literals that the fold can compare. */
  predicate Comparable(e: Expr) {
    e.StringLiteral? || e.IntLiteral? || e.BoolLiteral? || e.Null?
  }

  /** Literals, comparisons of literals, and `!`, `&&` and `||` over these. */
  predicate LiteralGuard(e: Expr) {
    match e
    case BoolLiteral(_) => true
    case IntLiteral(_) => true
    case Null => true
    case Not(inner) => LiteralGuard(inner)
    case BinaryOp(left, op, right) =>
      if op.And? || op.Or? then LiteralGuard(left) && LiteralGuard(right)
      else IsComparison(op) && Comparable(left) && Comparable(right)
    case _ => false
  }

  /** Both equalities compare payloads. */
  ghost predicate ComparesPayloads(w: World) {
    forall l: Value, r: Value :: w.loose(l, r) == (l == r) == w.strict(l, r)
  }

  /** The same with a right operand that is never reached, which may be anything. */
  predicate Decided(e: Expr, w: World) {
    match e
    case BoolLiteral(_) => true
    case IntLiteral(_) => true
    case Null => true
    case Not(inner) => Decided(inner, w)
    case BinaryOp(left, op, right) =>
      if op.And? then Decided(left, w) && (Verdict(left, w) == Some(true) ==> Decided(right, w))
      else if op.Or? then Decided(left, w) && (Verdict(left, w) == Some(false) ==> Decided(right, w))
      else IsComparison(op) && Comparable(left) && Comparable(right)
    case _ => false
  }

  lemma {:induction false} PayloadsCompareRight(e: Expr, w: World)
    requires ComparesPayloads(w)
    ensures ComparesRight(e, w)
    decreases e
  {
    match e
    case Not(inner) => PayloadsCompareRight(inner, w);
    case BinaryOp(left, op, right) =>
      if op.And? || op.Or? {
        PayloadsCompareRight(left, w);
        PayloadsCompareRight(right, w);
      } else if IsComparison(op) && FoldSame(left, right).Some? {
        var l, r := LiteralValue(left), LiteralValue(right);
        assert w.loose(l, r) == (l == r) == w.strict(l, r);
      }
    case _ =>
  }

  /** The fold decides exactly these guards. */
  lemma {:induction false} DecidedExactly(e: Expr, w: World)
    requires ComparesPayloads(w)
    ensures FoldBool(e).Some? <==> Decided(e, w)
    ensures FoldBool(e).Some? ==> FoldBool(e) == Verdict(e, w)
    decreases e
  {
    PayloadsCompareRight(e, w);
    if FoldBool(e).Some? {
      FoldIsRight(e, w);
    }
    match e
    case Not(inner) => DecidedExactly(inner, w);
    case BinaryOp(left, op, right) =>
      if op.And? || op.Or? {
        DecidedExactly(left, w);
        DecidedExactly(right, w);
      }
    case _ =>
  }

  /** In particular all literal guards. */
  lemma {:induction false} LiteralGuardIsDecided(e: Expr)
    requires LiteralGuard(e)
    ensures FoldBool(e).Some?
    decreases e
  {
    match e
    case Not(inner) => LiteralGuardIsDecided(inner);
    case BinaryOp(left, op, right) =>
      if op.And? || op.Or? {
        LiteralGuardIsDecided(left);
        LiteralGuardIsDecided(right);
      }
    case _ =>
  }

  // ----- what is left after flattening -----

  predicate LiteralIf(s: Stmt) {
    s.If? && LiteralGuard(s.cond) && forall i :: 0 <= i < |s.elseifs| ==> LiteralGuard(Guard(s.elseifs[i]))
  }

  lemma {:induction false} LiteralElseifsDecide(s: Stmt, i: nat)
    requires LiteralIf(s) && i <= |s.elseifs|
    ensures !TakenElseif(s, i).Undecided?
    decreases |s.elseifs| - i
  {
    if i < |s.elseifs| {
      LiteralGuardIsDecided(Guard(s.elseifs[i]));
      LiteralElseifsDecide(s, i + 1);
    }
  }

  /** No `if` with literal guards only is left. */
  lemma LiteralIfsAreInlined(program: Block)
    ensures forall s :: s in Flattened(program) ==> !LiteralIf(s)
  {
    FlattenedFolds(program);
    forall s | s in Flattened(program) ensures !LiteralIf(s) {
      if LiteralIf(s) {
        LiteralGuardIsDecided(s.cond);
        LiteralElseifsDecide(s, 0);
      }
    }
  }

  // ----- a guarded registration -----

  /** `\spl_autoload_register(function ($p) { ... });` */
  function RegisteringClosure(p: string, body: Block): Stmt {
    ExprStmt(FunctionCall(Name(FullyQualified, "spl_autoload_register"), [Closure([p], [], None, body)]))
  }

  /** `if (cond) { \spl_autoload_register(function ($p) { ... }); }` */
  function Guarded(cond: Expr, p: string, body: Block): Block {
    [If(cond, [RegisteringClosure(p, body)], [], NoBody)]
  }

  lemma FlattenedGuarded(cond: Expr, p: string, body: Block)
    requires FoldBool(cond).Some?
    ensures Flattened(Guarded(cond, p, body)) == if FoldBool(cond).value then [RegisteringClosure(p, body)] else []
  {
    var program, inner := Guarded(cond, p, body), [RegisteringClosure(p, body)];
    hide FoldBool;
    assert inner[1..] == [] && program[1..] == [];
    assert Flattened([]) == [];
    assert FlattenedStmt(inner[0]) == inner;
    assert Flattened(inner) == inner;
  }

  lemma ClosureCall(program: Block, p: string, body: Block)
    requires program == [RegisteringClosure(p, body)]
    ensures Registers(program, 0) && StraightLine(program) && |program[0].expr.args| == 1
    ensures Heard(program, 0) == Some(Rule(p, body))
  {
    RegisterName();
    hide Lowercase, REGISTER, Functions, NamespaceAt;
  }

  lemma ClosureRegisters(p: string, body: Block)
    ensures Collected([RegisteringClosure(p, body)]).chain == [Rule(p, body)]
    ensures Collected([]).chain == []
  {
    hide Registers, Heard, StraightLine, RegisteringClosure, QueueOf;
    var program := [RegisteringClosure(p, body)];
    ClosureCall(program, p, body);
    StartsEmpty([], (e, vars) => OtherValue);
    AtEnd([], (e, vars) => OtherValue);
    hide Collected;
    OnlyCall(program, 0, (e, vars) => OtherValue);
  }

  /** A loader registered under a literal guard is collected exactly if the guard is true, where
      comparing payloads decides. */
  lemma GuardedLoaderIsCollected(cond: Expr, p: string, body: Block, w: World)
    requires LiteralGuard(cond) && ComparesPayloads(w)
    ensures Verdict(cond, w).Some?
    ensures Collected(Flattened(Guarded(cond, p, body))).chain == if Verdict(cond, w).value then [Rule(p, body)] else []
  {
    LiteralGuardIsDecided(cond);
    DecidedExactly(cond, w);
    FlattenedGuarded(cond, p, body);
    ClosureRegisters(p, body);
  }
}
