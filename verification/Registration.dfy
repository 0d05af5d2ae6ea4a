/** Collecting autoload rules from top-level register calls (src/autoload/rule.rs). */
module Registration {
  import opened Prelude
  import opened Ast
  import opened Names
  import opened Interpret
  import opened FoldIfs

  // ----- rules from closures and functions -----

  datatype Reason = ClosureExpected | HasCaptures | IsVariadic | NoParameter | ManyParameters

  function BuildRule(params: seq<string>, variadic: Option<string>, body: Block): Result<Rule, Reason> {
    if variadic.Some? then Err(IsVariadic)
    else if params == [] then Err(NoParameter)
    else if |params| > 1 then Err(ManyParameters)
    else Ok(Rule(params[0], body))
  }

  function ExtractClosureRule(e: Expr): Result<Rule, Reason> {
    match e
    case Closure(params, captures, variadic, body) =>
      if captures != [] then Err(HasCaptures) else BuildRule(params, variadic, body)
    case _ => Err(ClosureExpected)
  }

  /** The rule a top-level function declaration provides. */
  function FunctionRule(s: Stmt): Option<Rule> {
    match s
    case FunctionDecl(_, params, variadic, body) =>
      (match BuildRule(params, variadic, body)
       case Ok(rule) => Some(rule)
       case Err(_) => None)
    case _ => None
  }

  datatype FunctionSource = FunctionSource(rule: Rule, declIdx: nat)

  /** Where a rule came from. */
  datatype Source = Inline | FromFunction(name: string) | FromVariable(name: string)

  datatype Resolved = Resolves(rule: Rule, source: Source) | StripUnmatched(reason: Reason) | Unknown

  function ResolveCallable(arg: Expr, bindings: map<string, Rule>, functions: map<string, FunctionSource>): Resolved {
    match arg
    case Closure(_, _, _, _) =>
      (match ExtractClosureRule(arg)
       case Ok(rule) => Resolves(rule, Inline)
       case Err(reason) => StripUnmatched(reason))
    case Variable(name) => if name in bindings then Resolves(bindings[name], FromVariable(name)) else Unknown
    case StringLiteral(s) =>
      var name := TrimBackslashes(s);
      if name in functions then Resolves(functions[name].rule, FromFunction(name)) else Unknown
    case _ => Unknown
  }

  // ----- which calls -----

  const REGISTER := "spl_autoload_register"
  const UNREGISTER := "spl_autoload_unregister"

  predicate IsBuiltinCall(name: Name, namespace: Option<string>, local: set<string>, builtin: string) {
    && EqualIgnoringCase(name.text, builtin)
    && (|| name.kind.FullyQualified?
        || (name.kind.Unqualified?
            && (namespace.None? || namespace.value == "" || SymbolKey(CanonicalName(namespace, builtin)) !in local)))
  }

  function LiteralBool(e: Expr): bool {
    match e
    case BoolLiteral(b) => b
    case IntLiteral(n) => n != 0
    case _ => false
  }

  datatype Call = Register(rule: Rule, prepend: bool, source: Source) | Unregister(rule: Rule, source: Source)
    | StripClosure(reason: Reason)

  datatype Tables = Tables(functions: map<string, FunctionSource>, local: set<string>)

  function ClassifyCall(s: Stmt, namespace: Option<string>, bindings: map<string, Rule>, tables: Tables): Option<Call> {
    if !s.ExprStmt? || !s.expr.FunctionCall? || s.expr.args == [] then None
    else
      var (name, args) := (s.expr.callee, s.expr.args);
      var registers := IsBuiltinCall(name, namespace, tables.local, REGISTER);
      if !registers && !IsBuiltinCall(name, namespace, tables.local, UNREGISTER) then None
      else
        match ResolveCallable(args[0], bindings, tables.functions)
        case Resolves(rule, source) =>
          if registers then Some(Register(rule, |args| > 2 && LiteralBool(args[2]), source))
          else Some(Unregister(rule, source))
        case StripUnmatched(reason) => Some(StripClosure(reason))
        case Unknown => None
  }

  // ----- the chain -----

  function Position(chain: seq<Rule>, rule: Rule): (i: Option<nat>)
    ensures i.None? <==> rule !in chain
    ensures i.Some? ==> i.value < |chain| && chain[i.value] == rule && rule !in chain[..i.value]
  {
    if chain == [] then None
    else if chain[0] == rule then Some(0)
    else
      match Position(chain[1..], rule)
      case None => None
      case Some(i) =>
        assert chain[..i + 1] == [chain[0]] + chain[1..][..i];
        Some(i + 1)
  }

  function RemoveFirst(chain: seq<Rule>, rule: Rule): seq<Rule> {
    match Position(chain, rule)
    case None => chain
    case Some(i) => chain[..i] + chain[i + 1..]
  }

  datatype Collection = Collection(
    chain: seq<Rule>,
    bindings: map<string, Rule>,
    consumed: set<nat>,
    usedFunctions: set<string>,
    usedVars: set<string>,
    warnings: seq<(nat, Reason)>)

  const NOTHING := Collection([], map[], {}, {}, {}, [])

  function MarkUsed(c: Collection, source: Source): Collection {
    match source
    case Inline => c
    case FromFunction(name) => c.(usedFunctions := c.usedFunctions + {name})
    case FromVariable(name) => c.(usedVars := c.usedVars + {name})
  }

  function Apply(c: Collection, call: Call, idx: nat): Collection {
    match call
    case Register(rule, prepend, source) =>
      MarkUsed(c.(chain := if prepend then [rule] + c.chain else c.chain + [rule], consumed := c.consumed + {idx}),
        source)
    case Unregister(rule, source) =>
      MarkUsed(c.(chain := RemoveFirst(c.chain, rule), consumed := c.consumed + {idx}), source)
    case StripClosure(reason) => c.(warnings := c.warnings + [(idx, reason)], consumed := c.consumed + {idx})
  }

  method ClassifyAndProcess(s: Stmt, idx: nat, namespace: Option<string>, tables: Tables, before: Collection)
    returns (c: Collection, handled: bool)
    ensures handled == ClassifyCall(s, namespace, before.bindings, tables).Some?
    ensures c == if handled then Apply(before, ClassifyCall(s, namespace, before.bindings, tables).value, idx)
            else before
  {
    hide ClassifyCall, Position, MarkUsed;
    c := before;
    var call := ClassifyCall(s, namespace, before.bindings, tables);
    match call {
      case None =>
        return c, false;
      case Some(Register(rule, prepend, source)) =>
        if prepend {
          c := c.(chain := [rule] + c.chain);
        } else {
          c := c.(chain := c.chain + [rule]);
        }
        c := MarkUsed(c.(consumed := c.consumed + {idx}), source);
      case Some(Unregister(rule, source)) =>
        var position := Position(c.chain, rule);
        if position.Some? {
          c := c.(chain := c.chain[..position.value] + c.chain[position.value + 1..]);
        }
        c := MarkUsed(c.(consumed := c.consumed + {idx}), source);
      case Some(StripClosure(reason)) =>
        c := c.(warnings := c.warnings + [(idx, reason)]);
        c := c.(consumed := c.consumed + {idx});
    }
    return c, true;
  }

  function UpdateVarBindings(s: Stmt, bindings: map<string, Rule>): map<string, Rule> {
    if !s.Assign? then bindings
    else
      match ExtractClosureRule(s.value)
      case Ok(rule) => bindings[s.target := rule]
      case Err(_) => bindings - {s.target}
  }

  // ----- tables, by prefixes of the program -----

  /** The namespace in force after the first n statements. */
  function NamespaceAt(program: Block, n: nat): Option<string>
    requires n <= |program|
  {
    if n == 0 then None
    else if program[n - 1].NamespaceDecl? then program[n - 1].namespace
    else NamespaceAt(program, n - 1)
  }

  function FunctionRules(program: Block, n: nat): map<string, FunctionSource>
    requires n <= |program|
  {
    if n == 0 then map[]
    else
      match FunctionRule(program[n - 1])
      case None => FunctionRules(program, n - 1)
      case Some(rule) => FunctionRules(program, n - 1)[program[n - 1].fname := FunctionSource(rule, n - 1)]
  }

  function DeclaredKeys(stmts: Block, namespace: Option<string>): set<string>
    decreases stmts
  {
    if stmts == [] then {}
    else
      match stmts[0]
      case NamespaceDecl(ns) => DeclaredKeys(stmts[1..], ns)
      case NamespaceBlock(ns, body) => DeclaredKeys(body, ns) + DeclaredKeys(stmts[1..], namespace)
      case FunctionDecl(fname, _, _, _) =>
        {SymbolKey(CanonicalName(namespace, fname))} + DeclaredKeys(stmts[1..], namespace)
      case _ => DeclaredKeys(stmts[1..], namespace)
  }

  method CollectDeclaredFunctionKeys(stmts: Block, namespace: Option<string>, given: set<string>)
    returns (out: set<string>)
    ensures out == given + DeclaredKeys(stmts, namespace)
    decreases stmts
  {
    out := given;
    var current := namespace;
    for i := 0 to |stmts|
      invariant out + DeclaredKeys(stmts[i..], current) == given + DeclaredKeys(stmts, namespace)
    {
      assert stmts[i..][0] == stmts[i] && stmts[i..][1..] == stmts[i + 1..];
      match stmts[i] {
        case NamespaceDecl(ns) => current := ns;
        case NamespaceBlock(ns, body) => out := CollectDeclaredFunctionKeys(body, ns, out);
        case FunctionDecl(fname, _, _, _) => out := out + {SymbolKey(CanonicalName(current, fname))};
        case _ =>
      }
    }
    assert stmts[|stmts|..] == [];
  }

  function TablesOf(program: Block): Tables {
    Tables(FunctionRules(program, |program|), DeclaredKeys(program, None))
  }

  // ----- collecting -----

  function Step(c: Collection, s: Stmt, idx: nat, namespace: Option<string>, tables: Tables): Collection {
    if s.NamespaceDecl? then c
    else
      match ClassifyCall(s, namespace, c.bindings, tables)
      case Some(call) => Apply(c, call, idx)
      case None => c.(bindings := UpdateVarBindings(s, c.bindings))
  }

  function CollectedAfter(program: Block, n: nat, tables: Tables): Collection
    requires n <= |program|
  {
    if n == 0 then NOTHING
    else Step(CollectedAfter(program, n - 1, tables), program[n - 1], n - 1, NamespaceAt(program, n - 1), tables)
  }

  function Collected(program: Block): Collection {
    CollectedAfter(program, |program|, TablesOf(program))
  }

  /** Statements that the collection makes superfluous. */
  predicate Superfluous(program: Block, i: nat, c: Collection, tables: Tables)
    requires i < |program|
  {
    || i in c.consumed
    || (exists name :: name in tables.functions && name in c.usedFunctions && tables.functions[name].declIdx == i)
    || (program[i].Assign? && program[i].target in c.usedVars && program[i].value.Closure?)
  }

  function Kept(program: Block, n: nat, c: Collection, tables: Tables): Block
    requires n <= |program|
  {
    if n == 0 then []
    else Kept(program, n - 1, c, tables) + if Superfluous(program, n - 1, c, tables) then [] else [program[n - 1]]
  }

  function Cleaned(program: Block): Block {
    Kept(program, |program|, Collected(program), TablesOf(program))
  }

  method IndexFunctions(program: Block) returns (functions: map<string, FunctionSource>)
    ensures functions == FunctionRules(program, |program|)
  {
    functions := map[];
    for i := 0 to |program|
      invariant functions == FunctionRules(program, i)
    {
      var rule := FunctionRule(program[i]);
      if rule.Some? {
        functions := functions[program[i].fname := FunctionSource(rule.value, i)];
      }
    }
  }

  method WalkCalls(program: Block, tables: Tables) returns (c: Collection)
    ensures c == CollectedAfter(program, |program|, tables)
  {
    hide ClassifyCall, Apply, UpdateVarBindings;
    c := NOTHING;
    var namespace := None;
    for i := 0 to |program|
      invariant namespace == NamespaceAt(program, i) && c == CollectedAfter(program, i, tables)
    {
      if program[i].NamespaceDecl? {
        namespace := program[i].namespace;
      } else {
        var handled;
        c, handled := ClassifyAndProcess(program[i], i, namespace, tables, c);
        if !handled {
          c := c.(bindings := UpdateVarBindings(program[i], c.bindings));
        }
      }
    }
  }

  method CollectRegisterCalls(source: Block) returns (cleaned: Block, chain: seq<Rule>, warnings: seq<(nat, Reason)>)
    ensures var program := Flattened(source);
            cleaned == Cleaned(program) && chain == Collected(program).chain && warnings == Collected(program).warnings
  {
    hide Flattened, DeclaredKeys, FunctionRules, CollectedAfter, Kept;
    var program := FlattenFoldableIfs(source);
    var local := CollectDeclaredFunctionKeys(program, None, {});
    var functions := IndexFunctions(program);
    var tables := Tables(functions, local);
    assert tables == TablesOf(program);
    var c := WalkCalls(program, tables);
    cleaned := Strip(program, c, tables);
    chain, warnings := c.chain, c.warnings;
  }

  method Strip(program: Block, c: Collection, tables: Tables) returns (cleaned: Block)
    ensures cleaned == Kept(program, |program|, c, tables)
  {
    var consumed := c.consumed + set name | name in tables.functions && name in c.usedFunctions ::
      tables.functions[name].declIdx;
    ghost var before := consumed;
    for i := 0 to |program|
      invariant forall k :: k in consumed <==>
                  k in before || (0 <= k < i && program[k].Assign? && program[k].target in c.usedVars
                    && program[k].value.Closure?)
    {
      if program[i].Assign? && program[i].target in c.usedVars && program[i].value.Closure? {
        consumed := consumed + {i};
      }
    }
    cleaned := [];
    for i := 0 to |program|
      invariant cleaned == Kept(program, i, c, tables)
    {
      assert i in consumed <==> Superfluous(program, i, c, tables);
      if i !in consumed {
        cleaned := cleaned + [program[i]];
      }
    }
  }
}
