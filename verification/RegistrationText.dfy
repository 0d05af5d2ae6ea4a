/** Loaders by the text of a program: the assignments and declarations that a callable argument
    comes from, for the collection, for the run and for a run without some of the statements. */
module RegistrationText {
  import opened Prelude
  import opened Ast
  import opened Names
  import opened Interpret
  import opened Registration
  import opened RegistrationRun

  // ----- the last assignment -----

  /** The last assignment to x among the first n statements that are not left out. */
  function LastAssign(program: Block, n: nat, x: string, out: set<nat>): (k: Option<nat>)
    requires n <= |program|
    ensures k.Some? ==> k.value < n && k.value !in out && program[k.value].Assign? && program[k.value].target == x
    ensures forall i :: (if k.Some? then k.value + 1 else 0) <= i < n && i !in out && program[i].Assign? ==>
                          program[i].target != x
  {
    if n == 0 then None
    else if n - 1 !in out && program[n - 1].Assign? && program[n - 1].target == x then Some(n - 1)
    else LastAssign(program, n - 1, x, out)
  }

  /** Leaving statements out matters only if the last assignment is among them. */
  lemma {:induction false} LaterIsLeftOut(program: Block, n: nat, x: string, out: set<nat>)
    requires n <= |program|
    ensures var kept, last := LastAssign(program, n, x, out), LastAssign(program, n, x, {});
            kept.Some? && kept != last ==>
              last.Some? && last.value in out && LastAssign(program, last.value, x, out) == kept
  {
    if n > 0 {
      LaterIsLeftOut(program, n - 1, x, out);
    }
  }

  /** The variables after the first n statements. */
  function VarsAt(program: Block, n: nat, out: set<nat>, computed: Computed): Env
    requires n <= |program|
  {
    if n == 0 then map[]
    else
      var vars := VarsAt(program, n - 1, out, computed);
      if n - 1 in out || !program[n - 1].Assign? then vars
      else vars[program[n - 1].target := ValueOf(program[n - 1].value, vars, computed)]
  }

  lemma {:induction false} VarsExact(program: Block, n: nat, x: string, out: set<nat>, computed: Computed)
    requires n <= |program|
    ensures var vars, k := VarsAt(program, n, out, computed), LastAssign(program, n, x, out);
            if k.None? then x !in vars
            else
              && x in vars
              && vars[x] == ValueOf(program[k.value].value, VarsAt(program, k.value, out, computed), computed)
  {
    hide ValueOf;
    if n > 0 {
      VarsExact(program, n - 1, x, out, computed);
    }
  }

  // ----- where a value comes from -----

  /** An expression and where it is evaluated. */
  datatype Origin = Origin(at: nat, expr: Expr)

  /** What the value of `e` after n statements was copied from: anything but a variable, or
      a variable that nothing was assigned to. */
  function OriginOf(program: Block, n: nat, e: Expr, out: set<nat>): (o: Origin)
    requires n <= |program|
    ensures o.at <= n
    ensures o.expr.Variable? ==> LastAssign(program, o.at, o.expr.name, out).None?
  {
    if !e.Variable? then Origin(n, e)
    else
      match LastAssign(program, n, e.name, out)
      case None => Origin(n, e)
      case Some(k) => OriginOf(program, k, program[k].value, out)
  }

  /** An origin is the expression itself or what a statement assigned. */
  lemma {:induction false} OriginPlace(program: Block, n: nat, e: Expr, out: set<nat>)
    requires n <= |program|
    ensures var o := OriginOf(program, n, e, out);
            || o == Origin(n, e)
            || (o.at < n && program[o.at].Assign? && program[o.at].value == o.expr)
  {
    if e.Variable? {
      var k := LastAssign(program, n, e.name, out);
      if k.Some? {
        OriginPlace(program, k.value, program[k.value].value, out);
      }
    }
  }

  lemma {:induction false} OriginExact(program: Block, n: nat, e: Expr, out: set<nat>, computed: Computed)
    requires n <= |program|
    ensures var o := OriginOf(program, n, e, out);
            ValueOf(e, VarsAt(program, n, out, computed), computed)
              == ValueOf(o.expr, VarsAt(program, o.at, out, computed), computed)
    decreases n
  {
    if e.Variable? {
      VarsExact(program, n, e.name, out, computed);
      var k := LastAssign(program, n, e.name, out);
      if k.Some? {
        OriginExact(program, k.value, program[k.value].value, out, computed);
      }
    }
  }

  // ----- the last declaration -----

  /** Declares a function that can be a loader. */
  predicate DeclaresLoader(program: Block, i: int) {
    0 <= i < |program| && program[i].FunctionDecl? && FunctionRule(program[i]).Some?
  }

  /** The last loader among the first n statements that is declared with this spelling. */
  function LastSpelled(program: Block, n: nat, name: string): (i: Option<nat>)
    requires n <= |program|
    ensures i.Some? ==> i.value < n && DeclaresLoader(program, i.value) && program[i.value].fname == name
    ensures i.None? ==> forall k :: 0 <= k < n && DeclaresLoader(program, k) ==> program[k].fname != name
  {
    if n == 0 then None
    else if DeclaresLoader(program, n - 1) && program[n - 1].fname == name then Some(n - 1)
    else LastSpelled(program, n - 1, name)
  }

  predicate DeclaresNamed(program: Block, i: int, key: string) {
    0 <= i < |program| && program[i].FunctionDecl? && KeyAt(program, i) == key
  }

  /** The last function with this full name among the first n statements that are not left out. */
  function LastNamed(program: Block, n: nat, key: string, out: set<nat>): (i: Option<nat>)
    requires n <= |program|
    ensures i.Some? ==> i.value < n && i.value !in out && DeclaresNamed(program, i.value, key)
    ensures i.None? ==> forall k :: 0 <= k < n && k !in out ==> !DeclaresNamed(program, k, key)
  {
    if n == 0 then None
    else if n - 1 !in out && DeclaresNamed(program, n - 1, key) then Some(n - 1)
    else LastNamed(program, n - 1, key, out)
  }

  lemma {:induction false} LaterNameIsLeftOut(program: Block, n: nat, key: string, out: set<nat>)
    requires n <= |program|
    ensures var kept, last := LastNamed(program, n, key, out), LastNamed(program, n, key, {});
            kept.Some? && kept != last ==> last.Some? && last.value in out
  {
    hide KeyAt;
    if n > 0 {
      LaterNameIsLeftOut(program, n - 1, key, out);
    }
  }

  function RuleAt(program: Block, i: Option<nat>): Option<Rule>
    requires i.Some? ==> i.value < |program|
  {
    if i.None? then None else FunctionRule(program[i.value])
  }

  lemma {:induction false} RulesBySpelling(program: Block, n: nat, name: string)
    requires n <= |program|
    ensures var rules := FunctionRules(program, n);
            (if name in rules then Some(rules[name].rule) else None) == RuleAt(program, LastSpelled(program, n, name))
  {
    if n > 0 {
      RulesBySpelling(program, n - 1, name);
    }
  }

  lemma {:induction false} FunctionsByName(program: Block, n: nat, key: string)
    requires n <= |program|
    ensures RuleAtKey(Functions(program, n), key) == RuleAt(program, LastNamed(program, n, key, {}))
  {
    hide KeyAt, FunctionRule, SymbolKey, NamespaceAt;
    if n > 0 {
      FunctionsByName(program, n - 1, key);
    }
  }

  // ----- the loader that the run has -----

  function ClosureRule(e: Expr): Option<Rule> {
    match ExtractClosureRule(e)
    case Ok(rule) => Some(rule)
    case Err(_) => None
  }

  /** The loader declared under a full name. */
  function NamedRule(program: Block, name: string, out: set<nat>): Option<Rule> {
    RuleAt(program, LastNamed(program, |program|, SymbolKey(name), out))
  }

  /** The loader that a computed value stands for. */
  function StandsFor(program: Block, v: RuntimeValue, out: set<nat>): Option<Rule> {
    match v
    case ClosureValue(_, _, _, _) => ConformingRule(v)
    case TextValue(s) => NamedRule(program, CallableName(s), out)
    case OtherValue => None
  }

  /** The loader that `e` is after n statements, if some statements are left out. */
  function Provided(program: Block, n: nat, e: Expr, out: set<nat>, computed: Computed): Option<Rule>
    requires n <= |program|
  {
    var o := OriginOf(program, n, e, out);
    match o.expr
    case Closure(_, _, _, _) => ClosureRule(o.expr)
    case StringLiteral(s) => NamedRule(program, CallableName(s), out)
    case Variable(_) => None
    case BoolLiteral(_) => None
    case IntLiteral(_) => None
    case FloatLiteral(_) => None
    case Null => None
    case _ => StandsFor(program, computed(o.expr, VarsAt(program, o.at, out, computed)), out)
  }

  /** A variable provides what its last assignment provided. */
  lemma VariableProvides(program: Block, n: nat, x: string, out: set<nat>, computed: Computed)
    requires n <= |program|
    ensures Provided(program, n, Variable(x), out, computed) ==
              match LastAssign(program, n, x, out)
              case None => None
              case Some(k) => Provided(program, k, program[k].value, out, computed)
  {
    hide NamedRule, VarsAt, StandsFor, ClosureRule;
  }

  lemma ClosureProvides(program: Block, n: nat, e: Expr, out: set<nat>, computed: Computed)
    requires n <= |program|
    ensures e.Closure? ==> Provided(program, n, e, out, computed) == ClosureRule(e)
    ensures !e.Closure? ==> ClosureRule(e).None?
  {
  }

  /** The functions of the run are those declared by the statements that are not left out. */
  ghost predicate DeclaredBy(program: Block, out: set<nat>, declared: Declared) {
    forall key :: RuleAtKey(declared, key) == RuleAt(program, LastNamed(program, |program|, key, out))
  }

  lemma StandsForExact(program: Block, v: RuntimeValue, out: set<nat>, declared: Declared)
    requires DeclaredBy(program, out, declared)
    ensures Loader(v, declared) == StandsFor(program, v, out)
  {
    hide RuleAtKey, RuleAt, LastNamed, SymbolKey, CallableName;
  }

  lemma ProvidedExact(program: Block, n: nat, e: Expr, out: set<nat>, declared: Declared, computed: Computed)
    requires n <= |program| && DeclaredBy(program, out, declared)
    ensures Loader(ValueOf(e, VarsAt(program, n, out, computed), computed), declared)
            == Provided(program, n, e, out, computed)
  {
    var o := OriginOf(program, n, e, out);
    var vars := VarsAt(program, o.at, out, computed);
    OriginExact(program, n, e, out, computed);
    StandsForExact(program, ValueOf(o.expr, vars, computed), out, declared);
    if o.expr.Variable? {
      VarsExact(program, o.at, o.expr.name, out, computed);
    }
    hide OriginOf, VarsAt, DeclaredBy, LastAssign, RuleAt, LastNamed, SymbolKey, CallableName, Loader;
  }

  /** The loader that the argument of the i-th statement is when the run gets there. */
  function Meant(program: Block, i: nat, computed: Computed): Option<Rule>
    requires i < |program| && IsCall(program[i])
  {
    Provided(program, i, program[i].expr.args[0], {}, computed)
  }

  lemma {:induction false} RunVars(program: Block, n: nat, declared: Declared, computed: Computed)
    requires n <= |program|
    ensures Run(program, n, declared, computed).vars == VarsAt(program, n, {}, computed)
  {
    hide Execute, ValueOf;
    if n > 0 {
      RunVars(program, n - 1, declared, computed);
      ExecuteVars(Run(program, n - 1, declared, computed), program[n - 1], declared, computed);
    }
  }

  lemma AllDeclared(program: Block)
    ensures DeclaredBy(program, {}, AllFunctions(program))
  {
    forall key
      ensures RuleAtKey(AllFunctions(program), key) == RuleAt(program, LastNamed(program, |program|, key, {}))
    {
      FunctionsByName(program, |program|, key);
    }
  }

  /** The run's loader, by the text of the program. */
  lemma MeantExact(program: Block, i: nat, computed: Computed)
    requires i < |program| && IsCall(program[i])
    ensures Loader(ValueOf(program[i].expr.args[0], RunTo(program, i, computed).vars, computed), AllFunctions(program))
            == Meant(program, i, computed)
  {
    RunVars(program, i, AllFunctions(program), computed);
    AllDeclared(program);
    ProvidedExact(program, i, program[i].expr.args[0], {}, AllFunctions(program), computed);
    hide Run, Provided, Loader, ValueOf, Functions;
  }

  // ----- the loader that the collection hears -----

  function CollectedTo(program: Block, n: nat): Collection
    requires n <= |program|
  {
    CollectedAfter(program, n, TablesOf(program))
  }

  function ResolvedRule(r: Resolved): Option<Rule> {
    if r.Resolves? then Some(r.rule) else None
  }

  /** The loader that the collection sees in the argument of the i-th statement: a closure, the
      closure last assigned to a variable, the function last declared with a spelling. */
  function Heard(program: Block, i: nat): Option<Rule>
    requires i < |program| && IsCall(program[i])
  {
    match program[i].expr.args[0]
    case Closure(_, _, _, _) => ClosureRule(program[i].expr.args[0])
    case Variable(x) => BoundRule(program, i, x)
    case StringLiteral(s) => RuleAt(program, LastSpelled(program, |program|, TrimBackslashes(s)))
    case _ => None
  }

  function BoundRule(program: Block, n: nat, x: string): Option<Rule>
    requires n <= |program|
  {
    match LastAssign(program, n, x, {})
    case None => None
    case Some(k) => ClosureRule(program[k].value)
  }

  lemma StepBindings(c: Collection, s: Stmt, idx: nat, namespace: Option<string>, tables: Tables)
    ensures Step(c, s, idx, namespace, tables).bindings == UpdateVarBindings(s, c.bindings)
  {
    hide IsBuiltinCall, ResolveCallable, RemoveFirst;
  }

  lemma {:induction false} BindingsExact(program: Block, n: nat, tables: Tables, x: string)
    requires n <= |program|
    ensures var bindings := CollectedAfter(program, n, tables).bindings;
            (if x in bindings then Some(bindings[x]) else None) == BoundRule(program, n, x)
  {
    hide Step;
    if n > 0 {
      BindingsExact(program, n - 1, tables, x);
      StepBindings(CollectedAfter(program, n - 1, tables), program[n - 1], n - 1, NamespaceAt(program, n - 1), tables);
    }
  }

  /** The resolution of the collection, by the text of the program. */
  lemma HeardExact(program: Block, i: nat)
    requires i < |program| && IsCall(program[i])
    ensures var bindings, functions := CollectedTo(program, i).bindings, TablesOf(program).functions;
            ResolvedRule(ResolveCallable(program[i].expr.args[0], bindings, functions)) == Heard(program, i)
  {
    match program[i].expr.args[0]
    case Variable(x) =>
      BindingsExact(program, i, TablesOf(program), x);
      hide CollectedAfter, FunctionRules, DeclaredKeys, BoundRule;
    case StringLiteral(s) =>
      RulesBySpelling(program, |program|, TrimBackslashes(s));
      hide CollectedAfter, FunctionRules, DeclaredKeys;
    case _ =>
      hide CollectedAfter, FunctionRules, DeclaredKeys;
  }

  // ----- when what is heard is meant -----

  /** A variable is heard as meant exactly when what was last assigned to it, if anything,
      is a closure literal or no loader. */
  lemma VariableHeardExact(program: Block, i: nat, x: string, computed: Computed)
    requires i < |program| && IsCall(program[i]) && program[i].expr.args[0] == Variable(x)
    ensures var k := LastAssign(program, i, x, {});
            Heard(program, i) == Meant(program, i, computed)
            <==> || k.None?
                 || program[k.value].value.Closure?
                 || Provided(program, k.value, program[k.value].value, {}, computed).None?
  {
    VariableProvides(program, i, x, {}, computed);
    var k := LastAssign(program, i, x, {});
    if k.Some? {
      ClosureProvides(program, k.value, program[k.value].value, {}, computed);
    }
    hide Provided, ClosureRule, LastAssign;
  }

  /** Except for the names of functions, whatever the collection hears is meant. */
  lemma HeardIsMeant(program: Block, i: nat, computed: Computed)
    requires i < |program| && IsCall(program[i]) && !program[i].expr.args[0].StringLiteral?
    ensures Heard(program, i).Some? ==> Meant(program, i, computed) == Heard(program, i)
  {
    var e := program[i].expr.args[0];
    if e.Variable? {
      VariableHeardExact(program, i, e.name, computed);
      VariableProvides(program, i, e.name, {}, computed);
    }
    ClosureProvides(program, i, e, {}, computed);
    hide Provided, ClosureRule, LastAssign;
  }
}
