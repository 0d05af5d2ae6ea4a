/** The symbolic interpreter of autoload closures in src/autoload/interpret.rs.
    String and file-system builtins are given. */
module Interpret {
  import opened Prelude
  import opened Ast
  import opened Names

  datatype Value = Str(value: string, isClassName: bool) | Bool(b: bool) | Int(n: int) | NullValue {
    predicate Truthy() {
      match this
      case Bool(b) => b
      case Int(n) => n != 0
      case Str(s, _) => s != "" && s != "0"
      case NullValue => false
    }
  }

  type Vars = map<string, Value>

  datatype Flow = Proceed | Returns | Includes(path: string) | Unfoldable

  /** The value of a builtin on arguments it supports; `PATHINFO_*` and other constants;
      the decimal text of an integer. */
  datatype Builtins = Builtins(
    apply: (string, seq<Value>) -> Option<Value>,
    constant: string -> Option<Value>,
    decimal: int -> string)

  function ValueToString(v: Value, builtins: Builtins): string {
    match v
    case Str(s, _) => s
    case Int(n) => builtins.decimal(n)
    case Bool(b) => if b then "1" else ""
    case NullValue => ""
  }

  /** Two strings, one of them the candidate class name, compare by their symbol keys. */
  predicate ValuesEqual(l: Value, r: Value) {
    if l.Str? && r.Str? then
      if (l.isClassName || r.isClassName) && l.value != "" && r.value != ""
      then SymbolKey(l.value) == SymbolKey(r.value)
      else l.value == r.value
    else l == r
  }

  /** How many of the supplied arguments a supported builtin looks at. */
  function ArgumentsRead(name: string, supplied: nat): (n: Option<nat>)
    ensures n.Some? ==> n.value <= supplied
  {
    if name == "str_replace" then if supplied >= 3 then Some(3) else None
    else if name in {"str_starts_with", "str_ends_with", "pathinfo"} then if supplied >= 2 then Some(2) else None
    else if name in {"strtolower", "strtoupper", "file_exists", "is_file", "is_readable", "is_dir", "basename",
      "realpath"}
    then if supplied >= 1 then Some(1) else None
    else if name == "dirname" then if supplied >= 1 then Some(if supplied >= 2 then 2 else 1) else None
    else if name == "sprintf" then if supplied >= 1 then Some(supplied) else None
    else None
  }

  // ----- evaluation -----

  /** A binary operator on two values; both operands have been evaluated. */
  function Operate(op: BinOp, l: Value, r: Value, builtins: Builtins): Option<Value> {
    match op
    case Concat => Some(Str(ValueToString(l, builtins) + ValueToString(r, builtins), false))
    case Eq => Some(Bool(ValuesEqual(l, r)))
    case StrictEq => Some(Bool(ValuesEqual(l, r)))
    case NotEq => Some(Bool(!ValuesEqual(l, r)))
    case StrictNotEq => Some(Bool(!ValuesEqual(l, r)))
    case And => Some(Bool(l.Truthy() && r.Truthy()))
    case Or => Some(Bool(l.Truthy() || r.Truthy()))
    case OtherOp(_) => None
  }

  function EvalFirst(exprs: seq<Expr>, n: nat, vars: Vars, builtins: Builtins): Option<seq<Value>>
    requires n <= |exprs|
    decreases exprs
  {
    if n == 0 then Some([])
    else
      match Eval(exprs[0], vars, builtins)
      case None => None
      case Some(v) =>
        match EvalFirst(exprs[1..], n - 1, vars, builtins)
        case None => None
        case Some(vs) => Some([v] + vs)
  }

  function Eval(e: Expr, vars: Vars, builtins: Builtins): Option<Value>
    decreases e
  {
    match e
    case StringLiteral(s) => Some(Str(s, false))
    case IntLiteral(n) => Some(Int(n as int))
    case BoolLiteral(b) => Some(Bool(b))
    case Null => Some(NullValue)
    case Variable(name) => if name in vars then Some(vars[name]) else None
    case ConstRef(name) => builtins.constant(TrimBackslashes(name))
    case BinaryOp(left, op, right) =>
      (match Eval(left, vars, builtins)
       case None => None
       case Some(l) =>
         match Eval(right, vars, builtins)
         case None => None
         case Some(r) => Operate(op, l, r, builtins))
    case Not(inner) =>
      (match Eval(inner, vars, builtins)
       case None => None
       case Some(v) => Some(Bool(!v.Truthy())))
    case CastString(inner) =>
      (match Eval(inner, vars, builtins)
       case None => None
       case Some(v) => Some(Str(ValueToString(v, builtins), false)))
    case FunctionCall(callee, args) =>
      var name := TrimBackslashes(callee.text);
      (match ArgumentsRead(name, |args|)
       case None => None
       case Some(read) =>
         match EvalFirst(args, read, vars, builtins)
         case None => None
         case Some(vs) => builtins.apply(name, vs))
    case _ => None
  }

  // ----- execution, as a function -----

  function ExecutedBlock(stmts: Block, vars: Vars, builtins: Builtins): (Flow, Vars)
    decreases stmts, 0
  {
    if stmts == [] then (Proceed, vars)
    else
      var (flow, vars') := Executed(stmts[0], vars, builtins);
      if flow.Proceed? then ExecutedBlock(stmts[1..], vars', builtins) else (flow, vars')
  }

  function ExecutedElseifs(s: Stmt, i: nat, vars: Vars, builtins: Builtins): (Flow, Vars)
    requires s.If? && i <= |s.elseifs|
    decreases s, 0, |s.elseifs| - i
  {
    if i == |s.elseifs| then
      if s.elseBody.NoBody? then (Proceed, vars) else ExecutedBlock(s.elseBody.stmts, vars, builtins)
    else
      match Eval(Guard(s.elseifs[i]), vars, builtins)
      case None => (Unfoldable, vars)
      case Some(v) =>
        if v.Truthy() then ExecutedBlock(s.elseifs[i].body, vars, builtins)
        else ExecutedElseifs(s, i + 1, vars, builtins)
  }

  function Executed(s: Stmt, vars: Vars, builtins: Builtins): (Flow, Vars)
    decreases s, 1
  {
    match s
    case Assign(name, value) =>
      (match Eval(value, vars, builtins)
       case None => (Unfoldable, vars)
       case Some(v) => (Proceed, vars[name := v]))
    case ExprStmt(e) => (if Eval(e, vars, builtins).Some? then Proceed else Unfoldable, vars)
    case Include(path) =>
      (match Eval(path, vars, builtins)
       case Some(Str(p, _)) => (Includes(p), vars)
       case _ => (Unfoldable, vars))
    case If(cond, thenBody, _, _) =>
      (match Eval(cond, vars, builtins)
       case None => (Unfoldable, vars)
       case Some(v) =>
         if v.Truthy() then ExecutedBlock(thenBody, vars, builtins) else ExecutedElseifs(s, 0, vars, builtins))
    case Return(_) => (Returns, vars)
    case Synthetic(body) => ExecutedBlock(body, vars, builtins)
    case _ => (Unfoldable, vars)
  }

  // ----- execution, as the code does it -----

  class Interpreter {
    const builtins: Builtins
    var vars: Vars

    constructor (given: Builtins)
      ensures builtins == given && vars == map[]
    {
      builtins := given;
      vars := map[];
    }

    method ExecBlock(stmts: Block) returns (flow: Flow)
      modifies this
      ensures (flow, vars) == ExecutedBlock(stmts, old(vars), builtins)
      decreases stmts, 0
    {
      for i := 0 to |stmts|
        invariant ExecutedBlock(stmts, old(vars), builtins) == ExecutedBlock(stmts[i..], vars, builtins)
      {
        assert stmts[i..][0] == stmts[i] && stmts[i..][1..] == stmts[i + 1..];
        var step := ExecStmt(stmts[i]);
        if !step.Proceed? {
          return step;
        }
      }
      assert stmts[|stmts|..] == [];
      return Proceed;
    }

    method ExecStmt(s: Stmt) returns (flow: Flow)
      modifies this
      ensures (flow, vars) == Executed(s, old(vars), builtins)
      decreases s, 1
    {
      match s {
        case Assign(name, value) =>
          match Eval(value, vars, builtins) {
            case Some(v) =>
              vars := vars[name := v];
              return Proceed;
            case None =>
              return Unfoldable;
          }
        case ExprStmt(e) =>
          return if Eval(e, vars, builtins).Some? then Proceed else Unfoldable;
        case Include(path) =>
          match Eval(path, vars, builtins) {
            case Some(Str(p, _)) => return Includes(p);
            case _ => return Unfoldable;
          }
        case If(cond, thenBody, elseifs, elseBody) =>
          match Eval(cond, vars, builtins) {
            case None =>
              return Unfoldable;
            case Some(v) =>
              if v.Truthy() {
                flow := ExecBlock(thenBody);
                return;
              }
              for i := 0 to |elseifs|
                invariant vars == old(vars)
                invariant Executed(s, old(vars), builtins) == ExecutedElseifs(s, i, vars, builtins)
              {
                match Eval(Guard(elseifs[i]), vars, builtins) {
                  case None =>
                    return Unfoldable;
                  case Some(w) =>
                    if w.Truthy() {
                      flow := ExecBlock(elseifs[i].body);
                      return;
                    }
                }
              }
              if elseBody.Body? {
                flow := ExecBlock(elseBody.stmts);
                return;
              }
              return Proceed;
          }
        case Return(_) =>
          return Returns;
        case Synthetic(body) =>
          flow := ExecBlock(body);
        case _ =>
          return Unfoldable;
      }
    }
  }

  /** A rule is a closure: the parameter that receives the class name, and the body. */
  datatype Rule = Rule(paramName: string, body: Block)

  function Resolution(rule: Rule, className: string, builtins: Builtins): Option<string> {
    match ExecutedBlock(rule.body, map[rule.paramName := Str(className, true)], builtins).0
    case Includes(path) => Some(path)
    case _ => None
  }

  method Resolve(rule: Rule, className: string, builtins: Builtins) returns (path: Option<string>)
    ensures path == Resolution(rule, className, builtins)
  {
    var interp := new Interpreter(builtins);
    interp.vars := interp.vars[rule.paramName := Str(className, true)];
    assert interp.vars == map[rule.paramName := Str(className, true)];
    var flow := interp.ExecBlock(rule.body);
    match flow {
      case Includes(p) => return Some(p);
      case _ => return None;
    }
  }

  /** The resolution chain: the class index first, then the rules in order, each only
      if it yields a file that exists. */
  method ResolveClass(fqn: string, index: map<string, string>,
    rules: seq<Rule>, builtins: Builtins, isFile: string -> bool)
    returns (path: Option<string>)
    ensures TrimBackslashes(fqn) in index ==> path == Some(index[TrimBackslashes(fqn)])
    ensures TrimBackslashes(fqn) !in index ==>
              match path
              case None => forall k :: 0 <= k < |rules| ==> !Answers(rules[k], fqn, builtins, isFile)
              case Some(p) =>
                exists k :: 0 <= k < |rules| && Resolution(rules[k], fqn, builtins) == Some(p) && isFile(p)
                                          && forall j :: 0 <= j < k ==> !Answers(rules[j], fqn, builtins, isFile)
  {
    if TrimBackslashes(fqn) in index {
      return Some(index[TrimBackslashes(fqn)]);
    }
    for k := 0 to |rules|
      invariant forall j :: 0 <= j < k ==> !Answers(rules[j], fqn, builtins, isFile)
    {
      path := Resolve(rules[k], fqn, builtins);
      if path.Some? && isFile(path.value) {
        return;
      }
    }
    return None;
  }

  predicate Answers(rule: Rule, fqn: string, builtins: Builtins, isFile: string -> bool) {
    Resolution(rule, fqn, builtins).Some? && isFile(Resolution(rule, fqn, builtins).value)
  }
}
