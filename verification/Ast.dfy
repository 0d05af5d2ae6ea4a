/** Bytes, values that may be absent, and computations that may fail. */
module Prelude {
  type Byte = b: int | 0 <= b < 256

  type U64 = n: int | 0 <= n < 0x1_0000_0000_0000_0000

  /** Failure-compatible: `:-` propagates `None`. */
  datatype Option<+T> = None | Some(value: T) {
    predicate IsFailure() {
      None?
    }

    function PropagateFailure<U>(): Option<U>
      requires None?
    {
      None
    }

    function Extract(): T
      requires Some?
    {
      value
    }
  }

  datatype Result<+T, +E> = Ok(value: T) | Err(error: E)

  lemma SubsetSize<T>(a: set<T>, b: set<T>)
    requires a <= b
    ensures |a| <= |b|
    ensures |a| == |b| ==> a == b
  {
    assert b == a + (b - a);
  }
}

/** The part of the PHP syntax tree that the modelled passes look at
    (src/parser/ast). Everything else is an opaque node. */
module Ast {
  import opened Prelude

  newtype i64 = x: int | -0x8000_0000_0000_0000 <= x < 0x8000_0000_0000_0000

  /** `break` and `continue` levels: the parser accepts positive literals only. */
  type Level = n: int | 1 <= n witness 1

  datatype BinOp =
    | And | Or | Eq | StrictEq | NotEq | StrictNotEq | Concat | OtherOp(code: nat)

  datatype NameKind = Unqualified | Qualified | FullyQualified

  datatype Name = Name(kind: NameKind, text: string)

  datatype Expr =
    | BoolLiteral(b: bool)
    | IntLiteral(n: i64)
    | FloatLiteral(bits: U64)          // IEEE-754 bits of the literal
    | StringLiteral(s: string)
    | Null
    | Variable(name: string)
    | ConstRef(constName: string)
    | BinaryOp(left: Expr, op: BinOp, right: Expr)
    | Not(inner: Expr)
    | Negate(inner: Expr)
    | CastString(inner: Expr)
    | ErrorSuppress(inner: Expr)
    | ThrowExpr(inner: Expr)
    | FunctionCall(callee: Name, args: seq<Expr>)
    | ArrayLiteral(items: seq<Expr>)
    | Closure(params: seq<string>, captures: seq<string>, variadic: Option<string>, body: seq<Stmt>)
    | OtherExpr(tag: nat)

  /** An optional statement list: an `else`, `default` or `finally` body. */
  datatype OptBlock = NoBody | Body(stmts: seq<Stmt>)

  /** An `elseif` clause or a `case` arm: the guarding expressions and the body. */
  datatype Clause = Clause(guards: seq<Expr>, body: seq<Stmt>)

  datatype Stmt =
    | Assign(target: string, value: Expr)
    | ExprStmt(expr: Expr)
    | Include(path: Expr)
    | Return(result: Option<Expr>)
    | Throw(thrown: Expr)
    | Break(levels: Level)
    | Continue(levels: Level)
    | Synthetic(body: seq<Stmt>)
    | NamespaceDecl(namespace: Option<string>)
    | NamespaceBlock(namespace: Option<string>, body: seq<Stmt>)
    | IncludeOnceGuard(body: seq<Stmt>)
    | If(cond: Expr, thenBody: seq<Stmt>, elseifs: seq<Clause>, elseBody: OptBlock)
    | IfDef(thenBody: seq<Stmt>, elseBody: OptBlock)
    | While(cond: Expr, body: seq<Stmt>)
    | DoWhile(body: seq<Stmt>, cond: Expr)
    | For(init: Option<Stmt>, test: Option<Expr>, update: Option<Stmt>, body: seq<Stmt>)
    | Foreach(subject: Expr, body: seq<Stmt>)
    | Switch(subject: Expr, cases: seq<Clause>, default: OptBlock)
    | Try(tryBody: seq<Stmt>, catches: seq<Clause>, finallyBody: OptBlock)
    | FunctionDecl(fname: string, params: seq<string>, variadic: Option<string>, body: seq<Stmt>)
    | OtherStmt(tag: nat)

  type Block = seq<Stmt>

  /** The condition of an `elseif`; a clause with several guards has no single one. */
  function Guard(clause: Clause): Expr {
    if |clause.guards| == 1 then clause.guards[0] else OtherExpr(0)
  }
}
