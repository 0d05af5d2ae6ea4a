/** The symbolic interpreter against runs of the closure. */
module InterpretSound {
  import opened Prelude
  import opened Ast
  import opened Interpret
  import opened Names

  // ----- what PHP means by values and operators -----

  /** The text of a value, given the decimal text of integers. */
  function TextOf(v: Value, decimal: int -> string): string {
    if v.Str? then v.value
    else if v.Int? then decimal(v.n)
    else if v == Bool(true) then "1"
    else ""
  }

  /** Everything counts as true but false, zero, null, the empty string and "0". */
  predicate IsTrue(v: Value) {
    v != Bool(false) && v != Int(0) && v != NullValue && (v.Str? ==> v.value != "" && v.value != "0")
  }

  /** Equal values; strings regardless of where they come from, and class names in any case. */
  predicate SameValue(l: Value, r: Value) {
    if !l.Str? || !r.Str? then l == r
    else l.value == r.value || ((l.isClassName || r.isClassName) && EqualIgnoringCase(l.value, r.value))
  }

  /** The builtins of the documented subset, with the least and the greatest number of arguments
      they take. */
  const SIGNATURES: map<string, (nat, nat)> := map[
    "str_replace" := (3, 3),
    "str_starts_with" := (2, 2), "str_ends_with" := (2, 2), "pathinfo" := (2, 2),
    "strtolower" := (1, 1), "strtoupper" := (1, 1),
    "file_exists" := (1, 1), "is_file" := (1, 1), "is_readable" := (1, 1), "is_dir" := (1, 1),
    "basename" := (1, 1), "realpath" := (1, 1), "dirname" := (1, 2)]

  predicate Documented(name: string, supplied: nat) {
    || (name in SIGNATURES && SIGNATURES[name].0 <= supplied <= SIGNATURES[name].1)
    || (name == "sprintf" && supplied >= 1)
  }

  /** The interpreter reads as many of the supplied arguments as a documented call can have. */
  lemma ArgumentsReadExact(name: string, supplied: nat)
    ensures var read := ArgumentsRead(name, supplied);
            && (read.Some? ==> Documented(name, read.value))
            && (forall n :: 0 <= n <= supplied && Documented(name, n) ==> read.Some? && n <= read.value)
  {
  }

  lemma TextExact(v: Value, builtins: Builtins)
    ensures ValueToString(v, builtins) == TextOf(v, builtins.decimal)
  {
  }

  lemma TruthExact(v: Value)
    ensures v.Truthy() == IsTrue(v)
  {
  }

  lemma SameExact(l: Value, r: Value)
    ensures ValuesEqual(l, r) == SameValue(l, r)
  {
    if l.Str? && r.Str? {
      IgnoringCaseIsLowercase(l.value, r.value);
    }
  }

  // ----- a reference semantics -----

  /** Evaluating an expression yields a value, or control goes elsewhere: it throws,
      exits, or includes some file of its own. */
  datatype Response = Yields(v: Value, vars: Vars) | Diverts

  datatype Ending = Completes(vars: Vars) | ReturnsFrom | Reaches(path: string) | Strays

  /** One run: the builtins, loose and strict equality, and what each construct outside the supported
      subset does when it is met, which may differ from one time to the next. */
  datatype World = World(
    builtins: Builtins,
    loose: (Value, Value) -> bool,
    strict: (Value, Value) -> bool,
    anyExpr: (nat, Expr, Vars) -> Response,
    anyStmt: (nat, Stmt, Vars) -> Ending)

  function Unsupported(e: Expr, vars: Vars, clock: nat, w: World): (Response, nat) {
    (w.anyExpr(clock, e, vars), clock + 1)
  }

  function UnsupportedStmt(s: Stmt, vars: Vars, clock: nat, w: World): (Ending, nat) {
    (w.anyStmt(clock, s, vars), clock + 1)
  }

  function Combine(op: BinOp, l: Value, r: Value, w: World): Value
    requires !op.OtherOp?
  {
    if op.Eq? then Bool(w.loose(l, r))
    else if op.NotEq? then Bool(!w.loose(l, r))
    else if op.StrictEq? then Bool(w.strict(l, r))
    else if op.StrictNotEq? then Bool(!w.strict(l, r))
    else if op.And? then Bool(IsTrue(l) && IsTrue(r))
    else if op.Or? then Bool(IsTrue(l) || IsTrue(r))
    else Str(TextOf(l, w.builtins.decimal) + TextOf(r, w.builtins.decimal), false)
  }

  datatype Responses = AllYield(vs: seq<Value>, vars: Vars) | OneDiverts

  function RunAll(exprs: seq<Expr>, vars: Vars, clock: nat, w: World): (Responses, nat)
    decreases exprs
  {
    if exprs == [] then (AllYield([], vars), clock)
    else
      var (first, clock1) := RunExpr(exprs[0], vars, clock, w);
      if first.Diverts? then (OneDiverts, clock1)
      else
        var (rest, clock2) := RunAll(exprs[1..], first.vars, clock1, w);
        if rest.OneDiverts? then (OneDiverts, clock2) else (AllYield([first.v] + rest.vs, rest.vars), clock2)
  }

  /** Left to right, with short-circuit `&&` and `||`. */
  function RunExpr(e: Expr, vars: Vars, clock: nat, w: World): (Response, nat)
    decreases e
  {
    match e
    case StringLiteral(s) => (Yields(Str(s, false), vars), clock)
    case IntLiteral(n) => (Yields(Int(n as int), vars), clock)
    case BoolLiteral(b) => (Yields(Bool(b), vars), clock)
    case Null => (Yields(NullValue, vars), clock)
    case Variable(name) => if name in vars then (Yields(vars[name], vars), clock) else Unsupported(e, vars, clock, w)
    case ConstRef(name) =>
      (match w.builtins.constant(TrimBackslashes(name))
       case Some(v) => (Yields(v, vars), clock)
       case None => Unsupported(e, vars, clock, w))
    case BinaryOp(left, op, right) =>
      if op.OtherOp? then Unsupported(e, vars, clock, w)
      else
        var (l, clock1) := RunExpr(left, vars, clock, w);
        if l.Diverts? then (Diverts, clock1)
        else if op.And? && !IsTrue(l.v) then (Yields(Bool(false), l.vars), clock1)
        else if op.Or? && IsTrue(l.v) then (Yields(Bool(true), l.vars), clock1)
        else
          var (r, clock2) := RunExpr(right, l.vars, clock1, w);
          if r.Diverts? then (Diverts, clock2)
          else (Yields(Combine(op, l.v, r.v, w), r.vars), clock2)
    case Not(inner) =>
      var (v, clock1) := RunExpr(inner, vars, clock, w);
      (if v.Diverts? then Diverts else Yields(Bool(!IsTrue(v.v)), v.vars), clock1)
    case CastString(inner) =>
      var (v, clock1) := RunExpr(inner, vars, clock, w);
      (if v.Diverts? then Diverts else Yields(Str(TextOf(v.v, w.builtins.decimal), false), v.vars), clock1)
    case FunctionCall(callee, args) =>
      var name := TrimBackslashes(callee.text);
      if !Documented(name, |args|) then Unsupported(e, vars, clock, w)
      else
        var (vs, clock1) := RunAll(args, vars, clock, w);
        if vs.OneDiverts? then (Diverts, clock1)
        else
          (match w.builtins.apply(name, vs.vs)
           case Some(v) => (Yields(v, vs.vars), clock1)
           case None => Unsupported(e, vs.vars, clock1, w))
    case _ => Unsupported(e, vars, clock, w)
  }

  function RunBlock(stmts: Block, vars: Vars, clock: nat, w: World): (Ending, nat)
    decreases stmts, 0
  {
    if stmts == [] then (Completes(vars), clock)
    else
      var (first, clock1) := RunStmt(stmts[0], vars, clock, w);
      if first.Completes? then RunBlock(stmts[1..], first.vars, clock1, w) else (first, clock1)
  }

  function RunElseifs(s: Stmt, i: nat, vars: Vars, clock: nat, w: World): (Ending, nat)
    requires s.If? && i <= |s.elseifs|
    decreases s, 0, |s.elseifs| - i
  {
    if i == |s.elseifs| then
      if s.elseBody.NoBody? then (Completes(vars), clock) else RunBlock(s.elseBody.stmts, vars, clock, w)
    else
      var (v, clock1) := RunExpr(Guard(s.elseifs[i]), vars, clock, w);
      if v.Diverts? then (Strays, clock1)
      else if IsTrue(v.v) then RunBlock(s.elseifs[i].body, v.vars, clock1, w)
      else RunElseifs(s, i + 1, v.vars, clock1, w)
  }

  function RunStmt(s: Stmt, vars: Vars, clock: nat, w: World): (Ending, nat)
    decreases s, 1
  {
    match s
    case Assign(name, value) =>
      var (v, clock1) := RunExpr(value, vars, clock, w);
      (if v.Diverts? then Strays else Completes(v.vars[name := v.v]), clock1)
    case ExprStmt(e) =>
      var (v, clock1) := RunExpr(e, vars, clock, w);
      (if v.Diverts? then Strays else Completes(v.vars), clock1)
    case Include(path) =>
      var (v, clock1) := RunExpr(path, vars, clock, w);
      if v.Diverts? then (Strays, clock1)
      else if v.v.Str? then (Reaches(v.v.value), clock1)
      else UnsupportedStmt(s, v.vars, clock1, w)
    case If(cond, thenBody, _, _) =>
      var (v, clock1) := RunExpr(cond, vars, clock, w);
      if v.Diverts? then (Strays, clock1)
      else if IsTrue(v.v) then RunBlock(thenBody, v.vars, clock1, w)
      else RunElseifs(s, 0, v.vars, clock1, w)
    case Return(result) =>
      if result.None? then (ReturnsFrom, clock)
      else
        var (v, clock1) := RunExpr(result.value, vars, clock, w);
        (if v.Diverts? then Strays else ReturnsFrom, clock1)
    case Synthetic(body) => RunBlock(body, vars, clock, w)
    case _ => UnsupportedStmt(s, vars, clock, w)
  }

  // ----- calls that pass just what the interpreter reads -----

  // The predicates below follow the run that the interpreter folds: they ask that every
  // call evaluated on the way passes no argument the interpreter would skip.

  predicate CleanAll(exprs: seq<Expr>, vars: Vars, builtins: Builtins)
    decreases exprs
  {
    exprs == [] || (Clean(exprs[0], vars, builtins) && CleanAll(exprs[1..], vars, builtins))
  }

  predicate SkipsRight(op: BinOp, left: Expr, vars: Vars, builtins: Builtins) {
    match Eval(left, vars, builtins)
    case None => false
    case Some(l) => (op.And? && !IsTrue(l)) || (op.Or? && IsTrue(l))
  }

  predicate Clean(e: Expr, vars: Vars, builtins: Builtins)
    decreases e
  {
    match e
    case BinaryOp(left, op, right) =>
      Clean(left, vars, builtins) && (SkipsRight(op, left, vars, builtins) || Clean(right, vars, builtins))
    case Not(inner) => Clean(inner, vars, builtins)
    case CastString(inner) => Clean(inner, vars, builtins)
    case FunctionCall(callee, args) =>
      Documented(TrimBackslashes(callee.text), |args|) && CleanAll(args, vars, builtins)
    case _ => true
  }

  predicate CleanBlock(stmts: Block, vars: Vars, builtins: Builtins)
    decreases stmts, 0
  {
    if stmts == [] then true
    else
      var (flow, vars') := Executed(stmts[0], vars, builtins);
      CleanStmt(stmts[0], vars, builtins) && (flow.Proceed? ==> CleanBlock(stmts[1..], vars', builtins))
  }

  predicate CleanElseifs(s: Stmt, i: nat, vars: Vars, builtins: Builtins)
    requires s.If? && i <= |s.elseifs|
    decreases s, 0, |s.elseifs| - i
  {
    if i == |s.elseifs| then s.elseBody.Body? ==> CleanBlock(s.elseBody.stmts, vars, builtins)
    else
      && Clean(Guard(s.elseifs[i]), vars, builtins)
      && match Eval(Guard(s.elseifs[i]), vars, builtins)
         case None => true
         case Some(v) =>
           if IsTrue(v) then CleanBlock(s.elseifs[i].body, vars, builtins) else CleanElseifs(s, i + 1, vars, builtins)
  }

  predicate CleanStmt(s: Stmt, vars: Vars, builtins: Builtins)
    decreases s, 1
  {
    match s
    case Assign(_, value) => Clean(value, vars, builtins)
    case ExprStmt(e) => Clean(e, vars, builtins)
    case Include(path) => Clean(path, vars, builtins)
    case If(cond, thenBody, _, _) =>
      && Clean(cond, vars, builtins)
      && (match Eval(cond, vars, builtins)
          case None => true
          case Some(v) =>
            if IsTrue(v) then CleanBlock(thenBody, vars, builtins) else CleanElseifs(s, 0, vars, builtins))
    case Synthetic(body) => CleanBlock(body, vars, builtins)
    case _ => true
  }

  // ----- soundness, and what goes wrong without -----

  /** Comparison regardless of the case of the class name. */
  ghost predicate SharesEquality(w: World) {
    forall l, r :: w.loose(l, r) == SameValue(l, r) == w.strict(l, r)
  }

  /** Everything outside the supported subset goes astray. */
  function Straying(builtins: Builtins): World {
    World(builtins, (l, r) => SameValue(l, r), (l, r) => SameValue(l, r),
          (clock, e, vars) => Diverts, (clock, s, vars) => Strays)
  }

  /** What a fold promises about a run: the very value if clean; if not, a run in the
      straying world goes astray. */
  ghost predicate ValueAgrees(v: Value, clean: bool, vars: Vars, run: (Response, nat), clock: nat, w: World) {
    && (clean ==> run == (Yields(v, vars), clock))
    && (!clean && w == Straying(w.builtins) ==> run.0 == Diverts)
  }

  ghost predicate ValuesAgree(vs: seq<Value>, clean: bool, vars: Vars, run: (Responses, nat), clock: nat, w: World) {
    && (clean ==> run == (AllYield(vs, vars), clock))
    && (!clean && w == Straying(w.builtins) ==> run.0 == OneDiverts)
  }

  lemma {:induction false} EvalFirstSound(exprs: seq<Expr>, vars: Vars, clock: nat, w: World)
    requires SharesEquality(w) && EvalFirst(exprs, |exprs|, vars, w.builtins).Some?
    ensures ValuesAgree(EvalFirst(exprs, |exprs|, vars, w.builtins).value, CleanAll(exprs, vars, w.builtins), vars,
                        RunAll(exprs, vars, clock, w), clock, w)
    decreases exprs
  {
    if exprs != [] {
      EvalSound(exprs[0], vars, clock, w);
      EvalFirstSound(exprs[1..], vars, clock, w);
    }
  }

  /** A folded expression yields the same value in every run, and changes nothing. */
  lemma {:induction false} EvalSound(e: Expr, vars: Vars, clock: nat, w: World)
    requires SharesEquality(w) && Eval(e, vars, w.builtins).Some?
    ensures ValueAgrees(Eval(e, vars, w.builtins).value, Clean(e, vars, w.builtins), vars, RunExpr(e, vars, clock, w),
            clock, w)
    decreases e
  {
    match e
    case BinaryOp(left, op, right) =>
      EvalSound(left, vars, clock, w);
      EvalSound(right, vars, clock, w);
      OperateExact(op, Eval(left, vars, w.builtins).value, Eval(right, vars, w.builtins).value, w);
    case Not(inner) =>
      EvalSound(inner, vars, clock, w);
      TruthExact(Eval(inner, vars, w.builtins).value);
    case CastString(inner) =>
      EvalSound(inner, vars, clock, w);
      TextExact(Eval(inner, vars, w.builtins).value, w.builtins);
    case FunctionCall(callee, args) =>
      ArgumentsReadExact(TrimBackslashes(callee.text), |args|);
      if Documented(TrimBackslashes(callee.text), |args|) {
        EvalFirstSound(args, vars, clock, w);
      }
    case _ =>
  }

  /** The interpreter's operators are PHP's. */
  lemma OperateExact(op: BinOp, l: Value, r: Value, w: World)
    requires SharesEquality(w) && !op.OtherOp?
    ensures Operate(op, l, r, w.builtins) == Some(Combine(op, l, r, w))
    ensures l.Truthy() == IsTrue(l) && r.Truthy() == IsTrue(r)
  {
    assert w.loose(l, r) == SameValue(l, r) == w.strict(l, r);
    SameExact(l, r);
    TextExact(l, w.builtins);
    TextExact(r, w.builtins);
    TruthExact(l);
    TruthExact(r);
  }

  /** What the interpreter promises about a flow it reports. */
  ghost predicate Agrees(result: (Flow, Vars), clean: bool, run: (Ending, nat), clock: nat, w: World) {
    && (clean && result.0.Proceed? ==> run == (Completes(result.1), clock))
    && (clean && result.0.Includes? ==> run == (Reaches(result.0.path), clock))
    && (!clean && w == Straying(w.builtins) && (result.0.Proceed? || result.0.Includes?) ==> run.0 == Strays)
  }

  lemma {:induction false} BlockSound(stmts: Block, vars: Vars, clock: nat, w: World)
    requires SharesEquality(w)
    ensures Agrees(ExecutedBlock(stmts, vars, w.builtins), CleanBlock(stmts, vars, w.builtins),
                   RunBlock(stmts, vars, clock, w), clock, w)
    decreases stmts, 0
  {
    if stmts != [] {
      StmtSound(stmts[0], vars, clock, w);
      var (flow, vars') := Executed(stmts[0], vars, w.builtins);
      if flow.Proceed? {
        BlockSound(stmts[1..], vars', clock, w);
      }
    }
  }

  lemma {:induction false} ElseifsSound(s: Stmt, i: nat, vars: Vars, clock: nat, w: World)
    requires s.If? && i <= |s.elseifs| && SharesEquality(w)
    ensures Agrees(ExecutedElseifs(s, i, vars, w.builtins), CleanElseifs(s, i, vars, w.builtins),
                   RunElseifs(s, i, vars, clock, w), clock, w)
    decreases s, 0, |s.elseifs| - i
  {
    if i == |s.elseifs| {
      if s.elseBody.Body? {
        BlockSound(s.elseBody.stmts, vars, clock, w);
      }
    } else if Eval(Guard(s.elseifs[i]), vars, w.builtins).Some? {
      EvalSound(Guard(s.elseifs[i]), vars, clock, w);
      TruthExact(Eval(Guard(s.elseifs[i]), vars, w.builtins).value);
      BlockSound(s.elseifs[i].body, vars, clock, w);
      ElseifsSound(s, i + 1, vars, clock, w);
    }
  }

  lemma {:induction false} StmtSound(s: Stmt, vars: Vars, clock: nat, w: World)
    requires SharesEquality(w)
    ensures Agrees(Executed(s, vars, w.builtins), CleanStmt(s, vars, w.builtins), RunStmt(s, vars, clock, w), clock, w)
    decreases s, 1
  {
    if Executed(s, vars, w.builtins).0 != Unfoldable {
      match s
      case Assign(_, value) => EvalSound(value, vars, clock, w);
      case ExprStmt(e) => EvalSound(e, vars, clock, w);
      case Include(path) => EvalSound(path, vars, clock, w);
      case If(cond, thenBody, _, _) =>
        EvalSound(cond, vars, clock, w);
        TruthExact(Eval(cond, vars, w.builtins).value);
        BlockSound(thenBody, vars, clock, w);
        ElseifsSound(s, 0, vars, clock, w);
      case Synthetic(body) => BlockSound(body, vars, clock, w);
      case _ =>
    }
  }

  function Argument(rule: Rule, className: string): Vars {
    map[rule.paramName := Str(className, true)]
  }

  /** If a rule resolves a class to a path, every run of the closure on that class name
      reaches an include of that path before anything outside the subset happens. */
  lemma ResolutionIsSound(rule: Rule, className: string, w: World)
    requires SharesEquality(w) && CleanBlock(rule.body, Argument(rule, className), w.builtins)
    requires Resolution(rule, className, w.builtins).Some?
    ensures RunBlock(rule.body, Argument(rule, className), 0, w)
            == (Reaches(Resolution(rule, className, w.builtins).value), 0)
  {
    BlockSound(rule.body, Argument(rule, className), 0, w);
  }

  /** The resolved path is the one that every run includes exactly when no call on the way
      has an argument that the interpreter skips. */
  lemma ResolutionExact(rule: Rule, className: string, builtins: Builtins)
    requires Resolution(rule, className, builtins).Some?
    ensures (forall w: World :: w.builtins == builtins && SharesEquality(w) ==>
               RunBlock(rule.body, Argument(rule, className), 0, w).0
                 == Reaches(Resolution(rule, className, builtins).value))
            <==> CleanBlock(rule.body, Argument(rule, className), builtins)
  {
    if CleanBlock(rule.body, Argument(rule, className), builtins) {
      forall w: World | w.builtins == builtins && SharesEquality(w)
        ensures RunBlock(rule.body, Argument(rule, className), 0, w).0
                == Reaches(Resolution(rule, className, builtins).value)
      {
        ResolutionIsSound(rule, className, w);
      }
    } else {
      BlockSound(rule.body, Argument(rule, className), 0, Straying(builtins));
    }
  }

  // ----- a surplus argument -----

  /** `basename("a/b.php", ".php")`. */
  function SuffixedBasename(): Expr {
    FunctionCall(Name(Unqualified, "basename"), [StringLiteral("a/b.php"), StringLiteral(".php")])
  }

  lemma SuffixIsSkipped(vars: Vars, builtins: Builtins)
    ensures Eval(SuffixedBasename(), vars, builtins) == builtins.apply("basename", [Str("a/b.php", false)])
  {
    var call := SuffixedBasename();
    assert TrimBackslashes("basename") == "basename";
    assert EvalFirst(call.args[1..], 0, vars, builtins) == Some([]);
    assert Eval(call.args[0], vars, builtins) == Some(Str("a/b.php", false));
    assert [Str("a/b.php", false)] + [] == [Str("a/b.php", false)];
    assert EvalFirst(call.args, 1, vars, builtins) == Some([Str("a/b.php", false)]);
  }

  /** The interpreter ignores the suffix that PHP's `basename` cuts off: in every world in
      which the call is what PHP says, the folded path is not the one included. */
  lemma SurplusArgumentMisleads(rule: Rule, className: string, w: World)
    requires rule.body == [Include(SuffixedBasename())]
    requires w.builtins.apply("basename", [Str("a/b.php", false)]) == Some(Str("b.php", false))
    requires w.anyExpr(0, SuffixedBasename(), Argument(rule, className))
             == Yields(Str("b", false), Argument(rule, className))
    ensures Resolution(rule, className, w.builtins) == Some("b.php")
    ensures RunBlock(rule.body, Argument(rule, className), 0, w).0 == Reaches("b")
  {
    var vars := Argument(rule, className);
    SuffixIsSkipped(vars, w.builtins);
    assert TrimBackslashes("basename") == "basename";
    assert rule.body[1..] == [];
    assert RunExpr(SuffixedBasename(), vars, 0, w).0 == Yields(Str("b", false), vars);
    hide Eval, RunExpr;
    assert Executed(rule.body[0], vars, w.builtins).0 == Includes("b.php");
    assert RunStmt(rule.body[0], vars, 0, w).0 == Reaches("b");
  }
}
