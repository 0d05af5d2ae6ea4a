/** A program whose cleaned form registers a loader that the program never registers. */
module RegistrationMasked {
  import opened Prelude
  import opened Ast
  import opened Names
  import opened Interpret
  import opened Registration
  import opened RegistrationRun
  import opened RegistrationText
  import opened RegistrationQueue
  import opened RegistrationCleaned

  // ----- what the collection marks as used -----

  lemma StepUses(c: Collection, s: Stmt, idx: nat, namespace: Option<string>, tables: Tables)
    ensures var next := Step(c, s, idx, namespace, tables);
            && c.usedVars <= next.usedVars
            && (!(IsCall(s) && s.expr.args[0].StringLiteral?) ==> next.usedFunctions == c.usedFunctions)
  {
    hide IsBuiltinCall, RemoveFirst, ExtractClosureRule, UpdateVarBindings, TrimBackslashes;
  }

  lemma StepUsesVariable(program: Block, i: nat, x: string)
    requires i < |program| && StraightLine(program) && HandsOver(program, i, x) && Heard(program, i).Some?
    ensures x in CollectedTo(program, i + 1).usedVars
  {
    BuiltinAt(program, i);
    HeardExact(program, i);
    hide CollectedAfter, IsBuiltinCall, CalleeAt, StraightLine, TablesOf, NamespaceAt, Heard, LiteralBool, REGISTER;
    StepAt(program, i);
  }

  lemma StepAt(program: Block, i: nat)
    requires i < |program|
    ensures CollectedTo(program, i + 1)
            == Step(CollectedTo(program, i), program[i], i, NamespaceAt(program, i), TablesOf(program))
  {
  }

  /** A variable is used once a loader is heard in it. */
  lemma {:induction false} VariableIsUsed(program: Block, i: nat, x: string, n: nat)
    requires i < n <= |program| && StraightLine(program) && HandsOver(program, i, x) && Heard(program, i).Some?
    ensures x in CollectedTo(program, n).usedVars
    decreases n
  {
    if n == i + 1 {
      StepUsesVariable(program, i, x);
    } else {
      VariableIsUsed(program, i, x, n - 1);
      StepAt(program, n - 1);
      StepUses(CollectedTo(program, n - 1), program[n - 1], n - 1, NamespaceAt(program, n - 1), TablesOf(program));
      hide Step, StraightLine, HandsOver, Heard, CollectedTo;
    }
  }

  lemma {:induction false} NoFunctionIsUsed(program: Block, n: nat)
    requires n <= |program| && forall i :: 0 <= i < |program| && IsCall(program[i]) ==>
               !program[i].expr.args[0].StringLiteral?
    ensures CollectedTo(program, n).usedFunctions == {}
  {
    hide Step;
    if n > 0 {
      NoFunctionIsUsed(program, n - 1);
      StepUses(CollectedTo(program, n - 1), program[n - 1], n - 1, NamespaceAt(program, n - 1), TablesOf(program));
    }
  }

  // ----- the program -----

  const LOADER := Rule("c", [])
  const MASKED := Rule("p", [])

  const HANDOVER := ExprStmt(FunctionCall(Name(FullyQualified, REGISTER), [Variable("f")]))

  /** `function load($p) {}`
      `$f = function ($c) {}; spl_autoload_register($f);`
      `$f = 'load'; $f = function ($a, $b) {}; spl_autoload_register($f);` */
  predicate IsExample(program: Block) {
    && |program| == 6
    && program[0] == FunctionDecl("load", ["p"], None, [])
    && program[1] == Assign("f", Closure(["c"], [], None, []))
    && program[2] == HANDOVER
    && program[3] == Assign("f", StringLiteral("load"))
    && program[4] == Assign("f", Closure(["a", "b"], [], None, []))
    && program[5] == HANDOVER
  }

  predicate HandsOverAt(program: Block, i: nat)
    requires i < |program|
  {
    HandsOver(program, i, "f") && |program[i].expr.args| == 1 && CleanCallee(program, i) == REGISTER
  }

  lemma HandsOverTwice(program: Block)
    requires IsExample(program)
    ensures StraightLine(program)
    ensures HandsOverAt(program, 2) && HandsOverAt(program, 5) && RegistersTwice(program, 2, 5)
    ensures forall i :: 0 <= i < 6 && i != 2 && i != 5 ==> !IsCall(program[i])
  {
    RegisterName();
    hide REGISTER, Lowercase, Functions, CleanFunctions, NamespaceAt;
  }

  lemma Assigned(program: Block, out: set<nat>)
    requires IsExample(program) && 3 !in out
    ensures LastAssign(program, 2, "f", {}) == Some(1)
    ensures LastAssign(program, 5, "f", out) == if 4 in out then Some(3) else Some(4)
  {
    hide HANDOVER;
  }

  lemma HeardOnce(program: Block, computed: Computed)
    requires IsExample(program)
    ensures IsCall(program[2]) && Heard(program, 2) == Some(LOADER) == Meant(program, 2, computed)
    ensures IsCall(program[5]) && Heard(program, 5) == None == Meant(program, 5, computed)
  {
    Assigned(program, {});
    VariableProvides(program, 2, "f", {}, computed);
    VariableProvides(program, 5, "f", {}, computed);
    ClosureProvides(program, 1, program[1].value, {}, computed);
    ClosureProvides(program, 4, program[4].value, {}, computed);
    hide REGISTER, LastAssign, Provided;
  }

  lemma CollectedOnce(program: Block, computed: Computed)
    requires IsExample(program)
    ensures Collected(program).chain == [LOADER] && QueueOf(program, computed) == [LOADER]
  {
    HandsOverTwice(program);
    HeardOnce(program, computed);
    hide *;
    OneRule(LOADER);
    TwoCalls(program, 2, 5, computed);
  }

  lemma OneRule(rule: Rule)
    ensures Single(Some(rule)) + Single(None) == [rule] == [] + Single(Some(rule))
  {
  }

  lemma DropsThree(program: Block)
    requires IsExample(program)
    ensures Drops(program, 1) && Drops(program, 2) && !Drops(program, 3) && Drops(program, 4) && !Drops(program, 5)
  {
    HandsOverTwice(program);
    HeardOnce(program, (e, vars) => OtherValue);
    assert HandsOver(program, 2, "f") && HandsOver(program, 5, "f");
    VariableIsUsed(program, 2, "f", 6);
    UsedAtEnd(program);
    DroppedKind(program, 1);
    DroppedKind(program, 3);
    DroppedKind(program, 4);
    hide Drops, HANDOVER, Collected, Heard, StraightLine, CalleeAt, CleanCallee, Classified, RegistersTwice,
         CollectedTo;
    HeardIsDropped(program, 2);
    UnboundIsKept(program, 5, "f");
  }

  lemma UsedAtEnd(program: Block)
    ensures Collected(program).usedVars == CollectedTo(program, |program|).usedVars
    ensures Collected(program).usedFunctions == CollectedTo(program, |program|).usedFunctions
  {
  }

  /** A function that is not used is kept. */
  lemma UnusedIsKept(program: Block, i: nat)
    requires i < |program| && program[i].FunctionDecl? && Collected(program).usedFunctions == {}
    ensures !Drops(program, i)
  {
    ConsumedExact(program, |program|, TablesOf(program));
    if Classified(program, i, TablesOf(program)) {
      ClassifiedIsCall(program, i, TablesOf(program));
    }
    hide CollectedAfter, FunctionRules, DeclaredKeys, Classified, ClassifyCall;
    var c := Collected(program);
    assert i !in c.consumed && forall name :: name !in c.usedFunctions;
    assert !Superfluous(program, i, c, TablesOf(program));
  }

  lemma FunctionIsKept(program: Block)
    requires IsExample(program)
    ensures !Drops(program, 0)
  {
    assert IsCall(program[2]) && IsCall(program[5]);
    hide HANDOVER, Collected, CollectedTo, Drops;
    assert forall i :: 0 <= i < 6 && IsCall(program[i]) ==> program[i] == HANDOVER;
    NoFunctionIsUsed(program, 6);
    UsedAtEnd(program);
    UnusedIsKept(program, 0);
  }

  lemma LoadIsKept(program: Block, out: set<nat>)
    requires IsExample(program) && 0 !in out
    ensures NamedRule(program, "load", out) == Some(MASKED)
  {
    hide REGISTER, SymbolKey, LastNamed;
    assert NamespaceAt(program, 0) == None && FunctionRule(program[0]) == Some(MASKED);
    assert DeclaresNamed(program, 0, SymbolKey("load"));
    assert forall k :: 0 < k < 6 ==> !program[k].FunctionDecl?;
  }

  lemma LeftOnce(program: Block, computed: Computed)
    requires IsExample(program)
    ensures IsCall(program[5]) && Left(program, 5, computed) == Some(MASKED)
  {
    DropsThree(program);
    FunctionIsKept(program);
    var out := DroppedOf(program);
    Assigned(program, out);
    LoadIsKept(program, out);
    VariableProvides(program, 5, "f", out, computed);
    StringProvides(program, 3, "load", out, computed);
    hide LastAssign, Drops, NamedRule, REGISTER, Provided;
  }

  lemma StringProvides(program: Block, n: nat, s: string, out: set<nat>, computed: Computed)
    requires n <= |program|
    ensures Provided(program, n, StringLiteral(s), out, computed) == NamedRule(program, CallableName(s), out)
  {
  }

  lemma LastLingers(program: Block, computed: Computed)
    requires IsExample(program)
    ensures Lingers(program, 5, computed) && Left(program, 5, computed) == Some(MASKED) && !Prepends(program[5])
  {
    HandsOverTwice(program);
    LeftOnce(program, computed);
    DropsThree(program);
    hide Left, Drops, CleanCallee, IsExample, StraightLine, RegistersTwice, HANDOVER;
  }

  lemma OthersAreSilent(program: Block)
    requires IsExample(program)
    ensures forall i :: 0 <= i < 5 ==> Drops(program, i) || !IsCall(program[i])
  {
    DropsThree(program);
    hide Drops;
  }

  lemma AddedToNothing(rule: Rule)
    ensures Added([], Some(rule), false) == [rule]
  {
  }

  /** The cleaned program registers `load`, and the program never does. */
  lemma MaskedLoaderIsRegistered(program: Block, computed: Computed)
    requires IsExample(program)
    ensures QueueOf(program, computed) == [LOADER] && Collected(program).chain == [LOADER]
    ensures QueueOf(Cleaned(program), computed) == [MASKED]
  {
    CollectedOnce(program, computed);
    LastLingers(program, computed);
    OthersAreSilent(program);
    NothingKept(program, computed);
    KeptAtEnd(program, computed);
    assert |program| == 6;
    hide IsExample, MASKED, LOADER, Left, Drops, Collected, IsCall, KeptTo, QueueOf, Prepends, Lingers, Added, HANDOVER;
    KeptSilent(program, 0, 5, computed);
    KeptQueueStep(program, 5, computed);
    AddedToNothing(MASKED);
  }
}
