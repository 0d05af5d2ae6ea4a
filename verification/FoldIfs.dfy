/** Inlining of top-level `if`s that are decided at compile time (src/autoload/rule.rs). */
module FoldIfs {
  import opened Prelude
  import opened Ast
  import opened Interpret
  import opened InterpretSound
  import opened Names
  import opened Utf8
  import opened StringBytes

  // ----- folding conditions -----

  datatype FoldedValue = FoldedStr(s: string) | FoldedInt(n: i64) | FoldedBool(b: bool) | FoldedNull

  function FoldValue(e: Expr): Option<FoldedValue> {
    match e
    case StringLiteral(s) => Some(FoldedStr(s))
    case IntLiteral(n) => Some(FoldedInt(n))
    case BoolLiteral(b) => Some(FoldedBool(b))
    case Null => Some(FoldedNull)
    case _ => None
  }

  /** Whether two literals are the same; every comparison is folded this way. */
  function FoldSame(left: Expr, right: Expr): Option<bool> {
    var l :- FoldValue(left);
    var r :- FoldValue(right);
    Some(l == r)
  }

  function FoldBool(e: Expr): Option<bool> {
    match e
    case BoolLiteral(b) => Some(b)
    case IntLiteral(n) => Some(n != 0)
    case Null => Some(false)
    case Not(inner) =>
      var b :- FoldBool(inner);
      Some(!b)
    case BinaryOp(left, op, right) =>
      if op.And? then
        var l :- FoldBool(left);
        if l then FoldBool(right) else Some(false)
      else if op.Or? then
        var l :- FoldBool(left);
        if l then Some(true) else FoldBool(right)
      else if op.Eq? || op.StrictEq? then FoldSame(left, right)
      else if op.NotEq? || op.StrictNotEq? then
        var same :- FoldSame(left, right);
        Some(!same)
      else None
    case _ => None
  }

  datatype Branch = Taken(body: Block) | Nothing | Undecided

  /** The statements that replace a decided `if`. */
  function Inlined(b: Branch): Block {
    if b.Taken? then b.body else []
  }

  function TakenElseif(s: Stmt, i: nat): (b: Branch)
    requires s.If? && i <= |s.elseifs|
    ensures b.Taken? ==> (s.elseBody.Body? && b.body == s.elseBody.stmts)
                         || exists k :: 0 <= k < |s.elseifs| && b.body == s.elseifs[k].body
    decreases |s.elseifs| - i
  {
    if i == |s.elseifs| then
      if s.elseBody.Body? then Taken(s.elseBody.stmts) else Nothing
    else
      match FoldBool(Guard(s.elseifs[i]))
      case None => Undecided
      case Some(b) => if b then Taken(s.elseifs[i].body) else TakenElseif(s, i + 1)
  }

  function TakenBranch(s: Stmt): (b: Branch)
    requires s.If?
    ensures b.Taken? ==> b.body == s.thenBody || (s.elseBody.Body? && b.body == s.elseBody.stmts)
                         || exists k :: 0 <= k < |s.elseifs| && b.body == s.elseifs[k].body
  {
    match FoldBool(s.cond)
    case None => Undecided
    case Some(b) => if b then Taken(s.thenBody) else TakenElseif(s, 0)
  }

  function FlattenedStmt(s: Stmt): Block
    decreases s
  {
    if s.If? then
      match TakenBranch(s)
      case Taken(body) => Flattened(body)
      case Nothing => []
      case Undecided => [s]
    else [s]
  }

  function Flattened(program: Block): Block
    decreases program
  {
    if program == [] then [] else FlattenedStmt(program[0]) + Flattened(program[1..])
  }

  lemma {:induction false} FlattenedSnoc(program: Block, last: Stmt)
    ensures Flattened(program + [last]) == Flattened(program) + FlattenedStmt(last)
    decreases |program|
  {
    if program == [] {
      assert Flattened([last][1..]) == [];
    } else {
      FlattenedSnoc(program[1..], last);
      assert (program + [last])[1..] == program[1..] + [last];
    }
  }

  method FlattenFoldableIfs(program: Block) returns (out: Block)
    ensures out == Flattened(program)
    decreases program
  {
    out := [];
    assert Flattened([]) == [];
    hide FoldBool, TakenBranch, Flattened;
    for i := 0 to |program|
      invariant out == Flattened(program[..i])
    {
      var stmt := program[i];
      assert program[..i + 1] == program[..i] + [stmt];
      FlattenedSnoc(program[..i], stmt);
      if stmt.If? {
        match TakenBranch(stmt) {
          case Taken(body) =>
            var inner := FlattenFoldableIfs(body);
            out := out + inner;
          case Nothing =>
          case Undecided =>
            out := out + [stmt];
        }
      } else {
        out := out + [stmt];
      }
    }
    assert program[..|program|] == program;
  }

  // ----- idempotence -----

  predicate NothingFolds(program: Block) {
    forall s :: s in program && s.If? ==> TakenBranch(s).Undecided?
  }

  lemma {:induction false} FlattenedStmtFolds(s: Stmt)
    ensures NothingFolds(FlattenedStmt(s))
    decreases s
  {
    if s.If? && TakenBranch(s).Taken? {
      FlattenedFolds(TakenBranch(s).body);
    }
  }

  lemma {:induction false} FlattenedFolds(program: Block)
    ensures NothingFolds(Flattened(program))
    decreases program
  {
    if program != [] {
      FlattenedStmtFolds(program[0]);
      FlattenedFolds(program[1..]);
    }
  }

  lemma {:induction false} NothingToFlatten(program: Block)
    requires NothingFolds(program)
    ensures Flattened(program) == program
  {
    if program != [] {
      assert program[0] in program && forall s :: s in program[1..] ==> s in program;
      NothingToFlatten(program[1..]);
    }
  }

  lemma FlatteningIsIdempotent(program: Block)
    ensures Flattened(Flattened(program)) == Flattened(program)
  {
    FlattenedFolds(program);
    NothingToFlatten(Flattened(program));
  }

  // ----- what a guard is worth in a run -----

  /** The world in which everything beyond the supported subset goes astray. */
  function Unaided(w: World): World {
    World(w.builtins, w.loose, w.strict, (clock, e, vars) => Diverts, (clock, s, vars) => Strays)
  }

  /** The truth of an expression that neither reads variables nor leaves the supported
      subset, with short-circuit operators and the world's equalities. */
  function Verdict(e: Expr, w: World): Option<bool> {
    var r := RunExpr(e, map[], 0, Unaided(w)).0;
    if r.Yields? then Some(IsTrue(r.v)) else None
  }

  lemma {:induction false} UnaidedAll(exprs: seq<Expr>, vars: Vars, clock: nat, w: World)
    requires RunAll(exprs, map[], 0, Unaided(w)).0.AllYield?
    ensures var vs := RunAll(exprs, map[], 0, Unaided(w)).0.vs;
            RunAll(exprs, map[], 0, Unaided(w)) == (AllYield(vs, map[]), 0)
            && RunAll(exprs, vars, clock, w) == (AllYield(vs, vars), clock)
    decreases exprs
  {
    if exprs != [] {
      UnaidedRuns(exprs[0], vars, clock, w);
      UnaidedAll(exprs[1..], vars, clock, w);
    }
  }

  /** What an expression yields without aid, it yields in every state and world. */
  lemma {:induction false} UnaidedRuns(e: Expr, vars: Vars, clock: nat, w: World)
    requires RunExpr(e, map[], 0, Unaided(w)).0.Yields?
    ensures var v := RunExpr(e, map[], 0, Unaided(w)).0.v;
            RunExpr(e, map[], 0, Unaided(w)) == (Yields(v, map[]), 0)
              && RunExpr(e, vars, clock, w) == (Yields(v, vars), clock)
    decreases e
  {
    match e
    case BinaryOp(left, op, right) =>
      if !op.OtherOp? {
        UnaidedRuns(left, vars, clock, w);
        var l := RunExpr(left, map[], 0, Unaided(w)).0.v;
        if !(op.And? && !IsTrue(l)) && !(op.Or? && IsTrue(l)) {
          UnaidedRuns(right, vars, clock, w);
        }
      }
    case Not(inner) => UnaidedRuns(inner, vars, clock, w);
    case CastString(inner) => UnaidedRuns(inner, vars, clock, w);
    case FunctionCall(callee, args) =>
      if Documented(TrimBackslashes(callee.text), |args|) {
        UnaidedAll(args, vars, clock, w);
      }
    case _ =>
  }

  /** A decided guard whose fold is its truth. */
  predicate GuardRight(e: Expr, w: World) {
    FoldBool(e).Some? && Verdict(e, w) == FoldBool(e)
  }

  lemma GuardRuns(e: Expr, vars: Vars, clock: nat, w: World)
    requires GuardRight(e, w)
    ensures var (v, clock') := RunExpr(e, vars, clock, w);
            v.Yields? && v.vars == vars && clock' == clock && IsTrue(v.v) == FoldBool(e).value
  {
    UnaidedRuns(e, vars, clock, w);
  }

  predicate RightElseifs(s: Stmt, i: nat, w: World)
    requires s.If? && i <= |s.elseifs|
    decreases |s.elseifs| - i
  {
    i < |s.elseifs| ==>
      GuardRight(Guard(s.elseifs[i]), w) && (FoldBool(Guard(s.elseifs[i])) == Some(false) ==> RightElseifs(s, i + 1, w))
  }

  predicate RightBranch(s: Stmt, w: World)
    requires s.If?
  {
    !TakenBranch(s).Undecided? ==> GuardRight(s.cond, w) && (FoldBool(s.cond) == Some(false) ==> RightElseifs(s, 0, w))
  }

  predicate RightStmt(s: Stmt, w: World)
    decreases s
  {
    s.If? ==> RightBranch(s, w) && (TakenBranch(s).Taken? ==> RightProgram(TakenBranch(s).body, w))
  }

  /** Every guard that decides a flattened branch is folded to its truth. */
  predicate RightProgram(program: Block, w: World)
    decreases program
  {
    program == [] || (RightStmt(program[0], w) && RightProgram(program[1..], w))
  }

  // ----- which guards are right -----

  function LiteralValue(e: Expr): Value
    requires FoldValue(e).Some?
  {
    match FoldValue(e).value
    case FoldedStr(s) => Str(s, false)
    case FoldedInt(n) => Int(n as int)
    case FoldedBool(b) => Bool(b)
    case FoldedNull => NullValue
  }

  /** How an operator compares, if it does. */
  function Compares(op: BinOp, l: Value, r: Value, w: World): bool {
    if op.Eq? || op.NotEq? then w.loose(l, r) else w.strict(l, r)
  }

  predicate IsComparison(op: BinOp) {
    op.Eq? || op.NotEq? || op.StrictEq? || op.StrictNotEq?
  }

  /** Every comparison that takes part in deciding the expression comes out as comparing the
      literals' payloads does. */
  predicate ComparesRight(e: Expr, w: World) {
    match e
    case Not(inner) => ComparesRight(inner, w)
    case BinaryOp(left, op, right) =>
      if op.And? then ComparesRight(left, w) && (FoldBool(left) == Some(true) ==> ComparesRight(right, w))
      else if op.Or? then ComparesRight(left, w) && (FoldBool(left) == Some(false) ==> ComparesRight(right, w))
      else
        IsComparison(op) && FoldSame(left, right).Some? ==>
          Compares(op, LiteralValue(left), LiteralValue(right), w) == FoldSame(left, right).value
    case _ => true
  }

  lemma LiteralRuns(e: Expr, w: World)
    requires FoldValue(e).Some?
    ensures RunExpr(e, map[], 0, Unaided(w)) == (Yields(LiteralValue(e), map[]), 0)
  {
  }

  /** If the deciding comparisons come out right, so does the guard. */
  lemma {:induction false} FoldIsRight(e: Expr, w: World)
    requires FoldBool(e).Some? && ComparesRight(e, w)
    ensures GuardRight(e, w)
    decreases e
  {
    match e
    case Not(inner) => FoldIsRight(inner, w);
    case BinaryOp(left, op, right) =>
      if op.And? || op.Or? {
        FoldIsRight(left, w);
        UnaidedRuns(left, map[], 0, w);
        if FoldBool(left).value == op.And? {
          FoldIsRight(right, w);
        }
      } else {
        LiteralRuns(left, w);
        LiteralRuns(right, w);
      }
    case _ =>
  }

  // ----- preservation -----

  lemma {:induction false} TakenElseifRuns(s: Stmt, i: nat, vars: Vars, clock: nat, w: World)
    requires s.If? && i <= |s.elseifs| && RightElseifs(s, i, w) && !TakenElseif(s, i).Undecided?
    ensures RunElseifs(s, i, vars, clock, w) == RunBlock(Inlined(TakenElseif(s, i)), vars, clock, w)
    decreases |s.elseifs| - i
  {
    if i < |s.elseifs| {
      GuardRuns(Guard(s.elseifs[i]), vars, clock, w);
      if !FoldBool(Guard(s.elseifs[i])).value {
        TakenElseifRuns(s, i + 1, vars, clock, w);
      }
    }
  }

  lemma TakenBranchRuns(s: Stmt, vars: Vars, clock: nat, w: World)
    requires s.If? && RightBranch(s, w) && !TakenBranch(s).Undecided?
    ensures RunStmt(s, vars, clock, w) == RunBlock(Inlined(TakenBranch(s)), vars, clock, w)
  {
    GuardRuns(s.cond, vars, clock, w);
    if !FoldBool(s.cond).value {
      TakenElseifRuns(s, 0, vars, clock, w);
    }
  }

  lemma {:induction false} RunAppend(a: Block, b: Block, vars: Vars, clock: nat, w: World)
    ensures var (first, clock') := RunBlock(a, vars, clock, w);
            RunBlock(a + b, vars, clock, w) ==
              if first.Completes? then RunBlock(b, first.vars, clock', w) else (first, clock')
    decreases |a|
  {
    if a == [] {
      assert a + b == b;
    } else {
      var (first, clock') := RunStmt(a[0], vars, clock, w);
      assert (a + b)[0] == a[0] && (a + b)[1..] == a[1..] + b;
      if first.Completes? {
        RunAppend(a[1..], b, first.vars, clock', w);
      }
    }
  }

  lemma OneStmt(s: Stmt, vars: Vars, clock: nat, w: World)
    ensures RunBlock([s], vars, clock, w) == RunStmt(s, vars, clock, w)
  {
    assert [s][1..] == [];
  }

  lemma {:induction false} FlattenedStmtRuns(s: Stmt, vars: Vars, clock: nat, w: World)
    requires RightStmt(s, w)
    ensures RunBlock(FlattenedStmt(s), vars, clock, w) == RunStmt(s, vars, clock, w)
    decreases s
  {
    OneStmt(s, vars, clock, w);
    if s.If? && !TakenBranch(s).Undecided? {
      TakenBranchRuns(s, vars, clock, w);
      if TakenBranch(s).Taken? {
        FlatteningPreservesRuns(TakenBranch(s).body, vars, clock, w);
      }
    }
  }

  /** Where every deciding guard is folded to its truth, flattening changes no run. */
  lemma {:induction false} FlatteningPreservesRuns(program: Block, vars: Vars, clock: nat, w: World)
    requires RightProgram(program, w)
    ensures RunBlock(Flattened(program), vars, clock, w) == RunBlock(program, vars, clock, w)
    decreases program
  {
    if program != [] {
      FlattenedStmtRuns(program[0], vars, clock, w);
      RunAppend(FlattenedStmt(program[0]), Flattened(program[1..]), vars, clock, w);
      var (first, clock') := RunStmt(program[0], vars, clock, w);
      if first.Completes? {
        FlatteningPreservesRuns(program[1..], first.vars, clock', w);
      }
    }
  }

  // ----- exactly when -----

  /** An `if` that includes one file or another. */
  function Choice(cond: Expr, yes: string, no: string): Block {
    [If(cond, [Include(StringLiteral(yes))], [], Body([Include(StringLiteral(no))]))]
  }

  lemma IncludeReaches(path: string, vars: Vars, clock: nat, w: World)
    ensures RunBlock([Include(StringLiteral(path))], vars, clock, w) == (Reaches(path), clock)
  {
    OneStmt(Include(StringLiteral(path)), vars, clock, w);
  }

  lemma ChoiceRuns(cond: Expr, yes: string, no: string, vars: Vars, clock: nat, w: World)
    requires RunExpr(cond, vars, clock, w).0.Yields? && RunExpr(cond, vars, clock, w).1 == clock
    ensures RunBlock(Choice(cond, yes, no), vars, clock, w)
            == (Reaches(if IsTrue(RunExpr(cond, vars, clock, w).0.v) then yes else no), clock)
  {
    var vars' := RunExpr(cond, vars, clock, w).0.vars;
    OneStmt(Choice(cond, yes, no)[0], vars, clock, w);
    IncludeReaches(yes, vars', clock, w);
    IncludeReaches(no, vars', clock, w);
  }

  lemma FlattenedChoice(cond: Expr, yes: string, no: string)
    requires FoldBool(cond).Some?
    ensures Flattened(Choice(cond, yes, no)) == [Include(StringLiteral(if FoldBool(cond).value then yes else no))]
  {
    var program, chosen := Choice(cond, yes, no), [Include(StringLiteral(if FoldBool(cond).value then yes else no))];
    hide FoldBool;
    assert TakenBranch(program[0]) == Taken(chosen);
    NothingToFlatten(chosen);
    assert FlattenedStmt(program[0]) == Flattened(chosen);
    assert program[1..] == [];
  }

  /** Worlds that differ at most in what unsupported constructs do. */
  ghost predicate Compatible(v: World, w: World) {
    v.builtins == w.builtins && v.loose == w.loose && v.strict == w.strict
  }

  /** A choice by a decided guard is flattened correctly, from every state and whatever the
      unsupported constructs do, exactly when the fold is the guard's truth. */
  lemma GuardExact(cond: Expr, yes: string, no: string, w: World)
    requires FoldBool(cond).Some? && yes != no
    ensures var program := Choice(cond, yes, no);
            (forall vars, clock: nat, v: World :: Compatible(v, w) ==>
               RunBlock(Flattened(program), vars, clock, v) == RunBlock(program, vars, clock, v))
            <==> GuardRight(cond, w)
  {
    var program, fold := Choice(cond, yes, no), FoldBool(cond).value;
    FlattenedChoice(cond, yes, no);
    if GuardRight(cond, w) {
      forall vars, clock: nat, v: World | Compatible(v, w)
        ensures RunBlock(Flattened(program), vars, clock, v) == RunBlock(program, vars, clock, v)
      {
        assert Unaided(v) == Unaided(w);
        RightChoice(cond, yes, no, vars, clock, v);
      }
    } else {
      WrongChoice(cond, yes, no, w);
      assert Compatible(Unaided(w), w);
    }
  }

  lemma RightChoice(cond: Expr, yes: string, no: string, vars: Vars, clock: nat, w: World)
    requires GuardRight(cond, w)
    ensures RunBlock(Flattened(Choice(cond, yes, no)), vars, clock, w)
            == RunBlock(Choice(cond, yes, no), vars, clock, w)
  {
    GuardRuns(cond, vars, clock, w);
    FlattenedChoice(cond, yes, no);
    ChoiceRuns(cond, yes, no, vars, clock, w);
    IncludeReaches(yes, vars, clock, w);
    IncludeReaches(no, vars, clock, w);
  }

  lemma WrongChoice(cond: Expr, yes: string, no: string, w: World)
    requires FoldBool(cond).Some? && !GuardRight(cond, w) && yes != no
    ensures RunBlock(Flattened(Choice(cond, yes, no)), map[], 0, Unaided(w)).0
            != RunBlock(Choice(cond, yes, no), map[], 0, Unaided(w)).0
  {
    var v := Unaided(w);
    FlattenedChoice(cond, yes, no);
    IncludeReaches(yes, map[], 0, v);
    IncludeReaches(no, map[], 0, v);
    if RunExpr(cond, map[], 0, v).0.Yields? {
      UnaidedRuns(cond, map[], 0, w);
      ChoiceRuns(cond, yes, no, map[], 0, v);
    } else {
      OneStmt(Choice(cond, yes, no)[0], map[], 0, v);
    }
  }

  /** For a guard that is one comparison of literals, that is when the world's equality agrees
      with equality of the payloads. */
  lemma ComparisonExact(left: Expr, op: BinOp, right: Expr, w: World)
    requires FoldValue(left).Some? && FoldValue(right).Some? && IsComparison(op)
    ensures GuardRight(BinaryOp(left, op, right), w)
            <==> (Compares(op, LiteralValue(left), LiteralValue(right), w) <==> FoldValue(left) == FoldValue(right))
  {
    LiteralRuns(left, w);
    LiteralRuns(right, w);
  }

  /** PHP takes null and false for equal; the fold does not. */
  lemma NullIsFalseMisfolds(w: World)
    requires w.loose(NullValue, Bool(false))
    ensures var program := Choice(BinaryOp(Null, Eq, BoolLiteral(false)), "a", "b");
            RunBlock(program, map[], 0, w).0 == Reaches("a")
              && RunBlock(Flattened(program), map[], 0, w).0 == Reaches("b")
  {
    var cond := BinaryOp(Null, Eq, BoolLiteral(false));
    FlattenedChoice(cond, "a", "b");
    ChoiceRuns(cond, "a", "b", map[], 0, w);
    IncludeReaches("b", map[], 0, w);
  }

  // ----- strict comparison -----

  /** PHP's strict equality: strings are identical if their bytes are. */
  predicate Identical(l: Value, r: Value) {
    if l.Str? && r.Str? then PhpBytes(l.value) == PhpBytes(r.value) else l == r
  }

  ghost predicate ComparesBytes(w: World) {
    forall l, r :: w.strict(l, r) == Identical(l, r)
  }

  /** Two spellings of the same bytes. */
  predicate Respelled(left: Expr, right: Expr) {
    left.StringLiteral? && right.StringLiteral? && left.s != right.s && PhpBytes(left.s) == PhpBytes(right.s)
  }

  /** A strict comparison of literals is folded to its truth exactly when the literals are not
      two spellings of the same bytes. */
  lemma StrictGuardExact(left: Expr, op: BinOp, right: Expr, w: World)
    requires FoldValue(left).Some? && FoldValue(right).Some? && (op.StrictEq? || op.StrictNotEq?) && ComparesBytes(w)
    ensures GuardRight(BinaryOp(left, op, right), w) <==> !Respelled(left, right)
  {
    ComparisonExact(left, op, right, w);
    var l, r := LiteralValue(left), LiteralValue(right);
    assert w.strict(l, r) == Identical(l, r);
    hide GuardRight, PhpBytes;
  }

  /** Literals without byte escapes above ASCII have one spelling. */
  lemma OneSpelling(left: Expr, right: Expr)
    requires left.StringLiteral? ==> NoMarker(left.s)
    requires right.StringLiteral? ==> NoMarker(right.s)
    ensures !Respelled(left, right)
  {
    if left.StringLiteral? && right.StringLiteral? && PhpBytes(left.s) == PhpBytes(right.s) {
      OwnBytesExact(left.s);
      OwnBytesExact(right.s);
      EncodeAllInjective(left.s, right.s);
    }
  }

  /** Every comparison that decides the expression is strict, and not of two spellings. */
  predicate DecidedStrictly(e: Expr) {
    match e
    case Not(inner) => DecidedStrictly(inner)
    case BinaryOp(left, op, right) =>
      if op.And? then DecidedStrictly(left) && (FoldBool(left) == Some(true) ==> DecidedStrictly(right))
      else if op.Or? then DecidedStrictly(left) && (FoldBool(left) == Some(false) ==> DecidedStrictly(right))
      else IsComparison(op) ==> (op.StrictEq? || op.StrictNotEq?) && !Respelled(left, right)
    case _ => true
  }

  /** Such guards are folded to their truth. */
  lemma StrictFoldIsRight(e: Expr, w: World)
    requires DecidedStrictly(e) && ComparesBytes(w)
    ensures ComparesRight(e, w)
    ensures FoldBool(e).Some? ==> GuardRight(e, w)
  {
    hide GuardRight, PhpBytes, FoldBool;
    StrictComparesRight(e, w);
    if FoldBool(e).Some? {
      FoldIsRight(e, w);
    }
  }

  lemma {:induction false} StrictComparesRight(e: Expr, w: World)
    requires DecidedStrictly(e) && ComparesBytes(w)
    ensures ComparesRight(e, w)
    decreases e
  {
    hide PhpBytes;
    match e
    case Not(inner) => StrictComparesRight(inner, w);
    case BinaryOp(left, op, right) =>
      if op.And? || op.Or? {
        StrictComparesRight(left, w);
        if FoldBool(left) == Some(op.And?) {
          StrictComparesRight(right, w);
        }
      } else if IsComparison(op) && FoldSame(left, right).Some? {
        var l, r := LiteralValue(left), LiteralValue(right);
        assert w.strict(l, r) == Identical(l, r);
      }
    case _ =>
  }

  /** `if ('\u{e9}' === "\xc3\xa9")`: the bytes are the same, the fold takes the other branch. */
  lemma RespellingMisfolds(w: World)
    requires ComparesBytes(w)
    ensures var left, right := ['\U{e9}'], [EscapedByte(0xc3), EscapedByte(0xa9)];
            var program := Choice(BinaryOp(StringLiteral(left), StrictEq, StringLiteral(right)), "a", "b");
            RunBlock(program, map[], 0, w).0 == Reaches("a")
            && RunBlock(Flattened(program), map[], 0, w).0 == Reaches("b")
  {
    var left, right := ['\U{e9}'], [EscapedByte(0xc3), EscapedByte(0xa9)];
    var cond := BinaryOp(StringLiteral(left), StrictEq, StringLiteral(right));
    SameBytes();
    FlattenedChoice(cond, "a", "b");
    assert w.strict(Str(left, false), Str(right, false)) == Identical(Str(left, false), Str(right, false));
    ChoiceRuns(cond, "a", "b", map[], 0, w);
    IncludeReaches("b", map[], 0, w);
  }

  lemma SameBytes()
    ensures PhpBytes(['\U{e9}']) == [0xc3, 0xa9] == PhpBytes([EscapedByte(0xc3), EscapedByte(0xa9)])
  {
    EscapedByteDecodes(0xc3);
    EscapedByteDecodes(0xa9);
    PhpBytesAppend([EscapedByte(0xc3)], [EscapedByte(0xa9)]);
    assert [EscapedByte(0xc3), EscapedByte(0xa9)] == [EscapedByte(0xc3)] + [EscapedByte(0xa9)];
    assert PhpBytes(['\U{e9}'][1..]) == [];
    assert Encode('\U{e9}') == [0xc3, 0xa9];
  }
}
