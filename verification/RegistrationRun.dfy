/** What a run of a straight-line program registers. */
module RegistrationRun {
  import opened Prelude
  import opened Ast
  import opened Termination
  import opened Names
  import opened Interpret
  import opened Registration

  // ----- values and functions -----

  datatype RuntimeValue =
    | ClosureValue(params: seq<string>, captures: seq<string>, variadic: Option<string>, body: Block)
    | TextValue(s: string)
    | OtherValue

  type Env = map<string, RuntimeValue>

  /** What every other expression evaluates to in given variables. */
  type Computed = (Expr, Env) -> RuntimeValue

  type Declared = map<string, Stmt>

  /** The full name of a declared function. */
  function KeyAt(program: Block, i: nat): string
    requires i < |program| && program[i].FunctionDecl?
  {
    SymbolKey(CanonicalName(NamespaceAt(program, i), program[i].fname))
  }

  /** Functions are declared before the program runs, under their full names. */
  function Functions(program: Block, n: nat): Declared
    requires n <= |program|
  {
    if n == 0 then map[]
    else if program[n - 1].FunctionDecl? then Functions(program, n - 1)[KeyAt(program, n - 1) := program[n - 1]]
    else Functions(program, n - 1)
  }

  function ValueOf(e: Expr, vars: Env, computed: Computed): RuntimeValue {
    match e
    case Closure(params, captures, variadic, body) => ClosureValue(params, captures, variadic, body)
    case StringLiteral(s) => TextValue(s)
    case Variable(name) => if name in vars then vars[name] else OtherValue
    case BoolLiteral(_) => OtherValue
    case IntLiteral(_) => OtherValue
    case FloatLiteral(_) => OtherValue
    case Null => OtherValue
    case _ => computed(e, vars)
  }

  /** What a closure promises to the chain; closures that bind variables, or do not take
      exactly the class name, contribute nothing. */
  function ConformingRule(v: RuntimeValue): Option<Rule> {
    if v.ClosureValue? && v.captures == [] && v.variadic.None? && |v.params| == 1
    then Some(Rule(v.params[0], v.body)) else None
  }

  function RuleAtKey(declared: Declared, key: string): Option<Rule> {
    if key in declared then FunctionRule(declared[key]) else None
  }

  /** The full name in a callable string, which may begin with one backslash. */
  function CallableName(text: string): string {
    if text != "" && text[0] == '\\' then text[1..] else text
  }

  /** The loader a value stands for: strings name functions by their full names. */
  function Loader(v: RuntimeValue, declared: Declared): Option<Rule> {
    match v
    case ClosureValue(_, _, _, _) => ConformingRule(v)
    case TextValue(s) => RuleAtKey(declared, SymbolKey(CallableName(s)))
    case OtherValue => None
  }

  // ----- calls -----

  /** The function that a call names: unqualified names fall back to the global one. */
  function Callee(name: Name, namespace: Option<string>, declared: Declared): string {
    var local := SymbolKey(CanonicalName(namespace, name.text));
    match name.kind
    case FullyQualified => SymbolKey(name.text)
    case Qualified => local
    case Unqualified => if local in declared then local else SymbolKey(name.text)
  }

  function FlagTruth(e: Expr): bool {
    match e
    case BoolLiteral(b) => b
    case IntLiteral(n) => n != 0
    case FloatLiteral(bits) => !FloatIsZero(bits)
    case StringLiteral(s) => s != "" && s != "0"
    case _ => false
  }

  predicate IsCall(s: Stmt) {
    s.ExprStmt? && s.expr.FunctionCall? && s.expr.args != []
  }

  function Prepends(s: Stmt): bool
    requires IsCall(s)
  {
    |s.expr.args| > 2 && FlagTruth(s.expr.args[2])
  }

  function Added(queue: seq<Rule>, rule: Option<Rule>, prepend: bool): seq<Rule> {
    match rule
    case None => queue
    case Some(r) => if prepend then [r] + queue else queue + [r]
  }

  function Removed(queue: seq<Rule>, rule: Option<Rule>): seq<Rule> {
    match rule
    case None => queue
    case Some(r) => RemoveFirst(queue, r)
  }

  // ----- a run -----

  datatype Machine = Machine(queue: seq<Rule>, vars: Env, namespace: Option<string>)

  const START := Machine([], map[], None)

  function RunCall(m: Machine, s: Stmt, callee: string, declared: Declared, computed: Computed): Machine
    requires IsCall(s)
  {
    var rule := Loader(ValueOf(s.expr.args[0], m.vars, computed), declared);
    if callee == REGISTER then m.(queue := Added(m.queue, rule, Prepends(s)))
    else if callee == UNREGISTER then m.(queue := Removed(m.queue, rule))
    else m
  }

  function Execute(m: Machine, s: Stmt, declared: Declared, computed: Computed): Machine {
    if s.NamespaceDecl? then m.(namespace := s.namespace)
    else if s.Assign? then m.(vars := m.vars[s.target := ValueOf(s.value, m.vars, computed)])
    else if IsCall(s) then RunCall(m, s, Callee(s.expr.callee, m.namespace, declared), declared, computed)
    else m
  }

  lemma ExecuteVars(m: Machine, s: Stmt, declared: Declared, computed: Computed)
    ensures Execute(m, s, declared, computed).vars
            == if s.Assign? then m.vars[s.target := ValueOf(s.value, m.vars, computed)] else m.vars
  {
    hide Callee, Loader, ValueOf;
  }

  function Run(program: Block, n: nat, declared: Declared, computed: Computed): Machine
    requires n <= |program|
  {
    if n == 0 then START else Execute(Run(program, n - 1, declared, computed), program[n - 1], declared, computed)
  }

  function AllFunctions(program: Block): Declared {
    Functions(program, |program|)
  }

  function RunTo(program: Block, n: nat, computed: Computed): Machine
    requires n <= |program|
  {
    Run(program, n, AllFunctions(program), computed)
  }

  function QueueOf(program: Block, computed: Computed): seq<Rule> {
    RunTo(program, |program|, computed).queue
  }

  lemma {:induction false} RunsInNamespace(program: Block, n: nat, declared: Declared, computed: Computed)
    requires n <= |program|
    ensures Run(program, n, declared, computed).namespace == NamespaceAt(program, n)
  {
    hide Callee, Loader, ValueOf;
    if n > 0 {
      RunsInNamespace(program, n - 1, declared, computed);
    }
  }

  // ----- straight-line programs -----

  predicate PlainName(s: string) {
    '\\' !in s
  }

  predicate IsLiteral(e: Expr) {
    e.BoolLiteral? || e.IntLiteral? || e.FloatLiteral? || e.StringLiteral? || e.Null?
  }

  /** Declarations, assignments, and expression statements whose flags, if they are calls,
      are literals; a qualified name contains a separator. */
  predicate Straight(s: Stmt) {
    || s.NamespaceDecl? || s.FunctionDecl? || s.Assign?
    || (s.ExprStmt? && (s.expr.FunctionCall? ==>
          && (s.expr.callee.kind.Qualified? ==> !PlainName(s.expr.callee.text))
          && (|s.expr.args| > 2 ==> IsLiteral(s.expr.args[2]))))
  }

  predicate StraightLine(program: Block) {
    forall s :: s in program ==> Straight(s)
  }

  // ----- which function is called -----

  lemma {:induction false} KeysAgree(program: Block, i: nat)
    requires i <= |program| && StraightLine(program)
    ensures Functions(program, i).Keys + DeclaredKeys(program[i..], NamespaceAt(program, i))
            == AllFunctions(program).Keys
    decreases |program| - i
  {
    if i < |program| {
      KeysAgree(program, i + 1);
      assert program[i] in program;
      assert program[i..][0] == program[i] && program[i..][1..] == program[i + 1..];
    }
  }

  /** Both sides know the same functions. */
  lemma LocalKeys(program: Block)
    requires StraightLine(program)
    ensures TablesOf(program).local == AllFunctions(program).Keys
  {
    KeysAgree(program, 0);
    assert program[0..] == program;
  }

  /** The syntactic test is PHP's name resolution. */
  lemma CalleeExact(name: Name, namespace: Option<string>, declared: Declared, builtin: string)
    requires Lowercase(builtin) == builtin && PlainName(builtin)
    requires name.kind.Qualified? ==> !PlainName(name.text)
    ensures IsBuiltinCall(name, namespace, declared.Keys, builtin) <==> Callee(name, namespace, declared) == builtin
  {
    LowercaseBackslash(name.text);
    IgnoringCaseIsLowercase(name.text, builtin);
    if namespace.Some? && namespace.value != "" {
      QualifiedKey(namespace.value, name.text);
      QualifiedKey(namespace.value, builtin);
    }
  }

  lemma RegisterName()
    ensures Lowercase(REGISTER) == REGISTER == "spl_autoload_register" && PlainName(REGISTER)
  {
    hide Lowercase;
    LowercaseText(REGISTER);
  }

  lemma UnregisterName()
    ensures Lowercase(UNREGISTER) == UNREGISTER == "spl_autoload_unregister" && PlainName(UNREGISTER)
  {
    hide Lowercase;
    LowercaseText(UNREGISTER);
  }

  /** The function that the i-th statement calls. */
  function CalleeAt(program: Block, i: nat, declared: Declared): string
    requires i < |program| && IsCall(program[i])
  {
    Callee(program[i].expr.callee, NamespaceAt(program, i), declared)
  }

  lemma BuiltinAt(program: Block, i: nat)
    requires i < |program| && StraightLine(program) && IsCall(program[i])
    ensures var callee := CalleeAt(program, i, AllFunctions(program));
            && (IsBuiltinCall(program[i].expr.callee, NamespaceAt(program, i), TablesOf(program).local, REGISTER)
              <==> callee == REGISTER)
            && (IsBuiltinCall(program[i].expr.callee, NamespaceAt(program, i), TablesOf(program).local, UNREGISTER)
              <==> callee == UNREGISTER)
  {
    assert program[i] in program;
    hide Callee, IsBuiltinCall, Functions, DeclaredKeys, NamespaceAt, Lowercase;
    LocalKeys(program);
    RegisterName();
    UnregisterName();
    CalleeExact(program[i].expr.callee, NamespaceAt(program, i), AllFunctions(program), REGISTER);
    CalleeExact(program[i].expr.callee, NamespaceAt(program, i), AllFunctions(program), UNREGISTER);
  }

  predicate Registers(program: Block, i: nat)
    requires i < |program|
  {
    IsCall(program[i]) && CalleeAt(program, i, AllFunctions(program)) == REGISTER
  }

  predicate Unregisters(program: Block, i: nat)
    requires i < |program|
  {
    IsCall(program[i]) && CalleeAt(program, i, AllFunctions(program)) == UNREGISTER
  }
}
