/** What the program that is left after the collection still registers. */
module RegistrationCleaned {
  import opened Prelude
  import opened Ast
  import opened Names
  import opened Interpret
  import opened Registration
  import opened RegistrationRun
  import opened RegistrationText
  import opened RegistrationQueue
  import opened RegistrationNames

  // ----- dropped statements -----

  ghost predicate Drops(program: Block, i: nat)
    requires i < |program|
  {
    Superfluous(program, i, Collected(program), TablesOf(program))
  }

  predicate Classified(program: Block, i: nat, tables: Tables)
    requires i < |program|
  {
    !program[i].NamespaceDecl?
    && ClassifyCall(program[i], NamespaceAt(program, i), CollectedAfter(program, i, tables).bindings, tables).Some?
  }

  lemma StepConsumes(c: Collection, s: Stmt, idx: nat, namespace: Option<string>, tables: Tables)
    ensures Step(c, s, idx, namespace, tables).consumed ==
              if !s.NamespaceDecl? && ClassifyCall(s, namespace, c.bindings, tables).Some? then c.consumed + {idx}
              else c.consumed
  {
    hide ClassifyCall, RemoveFirst, UpdateVarBindings;
  }

  /** The walk consumes exactly the calls it classifies. */
  lemma {:induction false} ConsumedExact(program: Block, n: nat, tables: Tables)
    requires n <= |program|
    ensures forall i ::
              i in CollectedAfter(program, n, tables).consumed <==> 0 <= i < n && Classified(program, i, tables)
  {
    hide Step, ClassifyCall;
    if n > 0 {
      ConsumedExact(program, n - 1, tables);
      StepConsumes(CollectedAfter(program, n - 1, tables), program[n - 1], n - 1, NamespaceAt(program, n - 1), tables);
    }
  }

  lemma ClassifiedIsCall(program: Block, i: nat, tables: Tables)
    requires i < |program| && Classified(program, i, tables)
    ensures IsCall(program[i])
  {
    hide CollectedAfter, IsBuiltinCall, ResolveCallable;
  }

  lemma {:induction false} RulesAreDeclared(program: Block, n: nat)
    requires n <= |program|
    ensures forall name :: name in FunctionRules(program, n) ==>
              DeclaresLoader(program, FunctionRules(program, n)[name].declIdx)
  {
    if n > 0 {
      RulesAreDeclared(program, n - 1);
    }
  }

  /** What is dropped: classified calls, loaders, and closures of used variables. */
  lemma DroppedKind(program: Block, i: nat)
    requires i < |program|
    ensures IsCall(program[i]) ==> (Drops(program, i) <==> Classified(program, i, TablesOf(program)))
    ensures program[i].Assign?
            ==> (Drops(program, i) <==> program[i].target in Collected(program).usedVars && program[i].value.Closure?)
    ensures program[i].FunctionDecl? && Drops(program, i) ==> DeclaresLoader(program, i)
    ensures Drops(program, i) ==> IsCall(program[i]) || program[i].Assign? || program[i].FunctionDecl?
  {
    ConsumedExact(program, |program|, TablesOf(program));
    RulesAreDeclared(program, |program|);
    if Classified(program, i, TablesOf(program)) {
      ClassifiedIsCall(program, i, TablesOf(program));
    }
    hide CollectedAfter, FunctionRules, DeclaredKeys, FunctionRule, ClassifyCall, Classified;
  }

  // ----- the run of what is kept -----

  lemma {:induction false} PrefixesAgree(p: Block, s: Stmt, n: nat, declared: Declared, computed: Computed)
    requires n <= |p|
    ensures NamespaceAt(p + [s], n) == NamespaceAt(p, n)
    ensures Functions(p + [s], n) == Functions(p, n)
    ensures Run(p + [s], n, declared, computed) == Run(p, n, declared, computed)
  {
    hide Execute, SymbolKey;
    if n > 0 {
      PrefixesAgree(p, s, n - 1, declared, computed);
      assert (p + [s])[n - 1] == p[n - 1];
    }
  }

  function CleanFunctions(program: Block): Declared {
    AllFunctions(Cleaned(program))
  }

  ghost function KeptOf(program: Block, n: nat): Block
    requires n <= |program|
  {
    Kept(program, n, Collected(program), TablesOf(program))
  }

  /** The statements kept of the first n, run after the declarations of the whole
      cleaned program. */
  ghost function KeptTo(program: Block, n: nat, computed: Computed): Machine
    requires n <= |program|
  {
    Run(KeptOf(program, n), |KeptOf(program, n)|, CleanFunctions(program), computed)
  }

  lemma KeptSplits(program: Block, i: nat)
    requires i < |program|
    ensures KeptOf(program, i + 1) ==
            if Drops(program, i) then KeptOf(program, i) else KeptOf(program, i) + [program[i]]
  {
    hide Collected, TablesOf, Superfluous;
  }

  lemma KeptStep(program: Block, i: nat, computed: Computed)
    requires i < |program|
    ensures KeptTo(program, i + 1, computed) ==
              if Drops(program, i) then KeptTo(program, i, computed)
              else Execute(KeptTo(program, i, computed), program[i], CleanFunctions(program), computed)
  {
    KeptSplits(program, i);
    hide KeptOf, Drops, Execute, CleanFunctions;
    PrefixesAgree(KeptOf(program, i), program[i], |KeptOf(program, i)|, CleanFunctions(program), computed);
  }

  lemma TablesSnoc(p: Block, s: Stmt)
    ensures NamespaceAt(p + [s], |p| + 1) == if s.NamespaceDecl? then s.namespace else NamespaceAt(p, |p|)
    ensures Functions(p + [s], |p| + 1) ==
              if s.FunctionDecl? then Functions(p, |p|)[SymbolKey(CanonicalName(NamespaceAt(p, |p|), s.fname)) := s]
              else Functions(p, |p|)
  {
    PrefixesAgree(p, s, |p|, map[], (e, vars) => OtherValue);
    assert (p + [s])[|p|] == s;
    hide Run, SymbolKey;
  }

  lemma NothingKept(program: Block, computed: Computed)
    ensures KeptOf(program, 0) == [] && KeptTo(program, 0, computed).queue == []
            && KeptTo(program, 0, computed).vars == map[]
  {
  }

  lemma DeclarationIsKept(program: Block, i: nat)
    requires i < |program| && program[i].NamespaceDecl?
    ensures !Drops(program, i)
  {
    DroppedKind(program, i);
    hide Drops;
  }

  lemma NextKeptNamespace(program: Block, i: nat)
    requires i < |program|
    ensures var kept, next := KeptOf(program, i), KeptOf(program, i + 1);
            NamespaceAt(next, |next|) ==
              if program[i].NamespaceDecl? then program[i].namespace else NamespaceAt(kept, |kept|)
  {
    KeptSplits(program, i);
    TablesSnoc(KeptOf(program, i), program[i]);
    if program[i].NamespaceDecl? {
      DeclarationIsKept(program, i);
    }
    hide KeptOf, Drops, Functions, CanonicalName, SymbolKey, NamespaceAt;
  }

  lemma {:induction false} KeptNamespaceAt(program: Block, n: nat)
    requires n <= |program|
    ensures NamespaceAt(KeptOf(program, n), |KeptOf(program, n)|) == NamespaceAt(program, n)
  {
    if n > 0 {
      KeptNamespaceAt(program, n - 1);
      NextKeptNamespace(program, n - 1);
      hide KeptOf;
    }
  }

  // ----- a kept call -----

  function CleanCallee(program: Block, i: nat): string
    requires i < |program| && IsCall(program[i])
  {
    CalleeAt(program, i, CleanFunctions(program))
  }

  ghost function DroppedOf(program: Block): set<nat> {
    set i | 0 <= i < |program| && Drops(program, i)
  }

  /** The loader that the argument of a kept call is in the cleaned run: the value of the last
      kept assignment, the last kept declaration of a name. */
  ghost function Left(program: Block, i: nat, computed: Computed): Option<Rule>
    requires i < |program| && IsCall(program[i])
  {
    Provided(program, i, program[i].expr.args[0], DroppedOf(program), computed)
  }

  lemma {:induction false} KeptVars(program: Block, n: nat, computed: Computed)
    requires n <= |program|
    ensures KeptTo(program, n, computed).vars == VarsAt(program, n, DroppedOf(program), computed)
  {
    NothingKept(program, computed);
    hide KeptTo, Drops, Execute, ValueOf, CleanFunctions;
    if n > 0 {
      KeptVars(program, n - 1, computed);
      KeptStep(program, n - 1, computed);
      ExecuteVars(KeptTo(program, n - 1, computed), program[n - 1], CleanFunctions(program), computed);
      assert n - 1 in DroppedOf(program) <==> Drops(program, n - 1);
    }
  }

  lemma NameSnoc(p: Block, s: Stmt, key: string)
    ensures RuleAtKey(Functions(p + [s], |p| + 1), key) ==
              if s.FunctionDecl? && SymbolKey(CanonicalName(NamespaceAt(p, |p|), s.fname)) == key then FunctionRule(s)
              else RuleAtKey(Functions(p, |p|), key)
  {
    TablesSnoc(p, s);
    hide Functions, SymbolKey, CanonicalName, FunctionRule, NamespaceAt;
  }

  lemma NextKeptByName(program: Block, i: nat, key: string)
    requires i < |program|
    ensures var kept, next := KeptOf(program, i), KeptOf(program, i + 1);
            RuleAtKey(Functions(next, |next|), key) ==
              if !Drops(program, i) && DeclaresNamed(program, i, key) then FunctionRule(program[i])
              else RuleAtKey(Functions(kept, |kept|), key)
  {
    KeptSplits(program, i);
    KeptNamespaceAt(program, i);
    NameSnoc(KeptOf(program, i), program[i], key);
    hide KeptOf, Drops, SymbolKey, FunctionRule, CanonicalName, Functions, NamespaceAt, RuleAtKey;
  }

  lemma {:induction false} KeptByName(program: Block, n: nat, key: string)
    requires n <= |program|
    ensures RuleAtKey(Functions(KeptOf(program, n), |KeptOf(program, n)|), key)
            == RuleAt(program, LastNamed(program, n, key, DroppedOf(program)))
  {
    if n == 0 {
      assert KeptOf(program, 0) == [];
    } else {
      KeptByName(program, n - 1, key);
      NextKeptByName(program, n - 1, key);
      assert n - 1 in DroppedOf(program) <==> Drops(program, n - 1);
      hide KeptOf, Drops, KeyAt, FunctionRule, Functions, NamespaceAt, DroppedOf;
    }
  }

  lemma CleanDeclared(program: Block)
    ensures DeclaredBy(program, DroppedOf(program), CleanFunctions(program))
  {
    forall key ensures RuleAtKey(CleanFunctions(program), key)
                       == RuleAt(program, LastNamed(program, |program|, key, DroppedOf(program))) {
      KeptByName(program, |program|, key);
    }
  }

  /** The cleaned run's loader, by the text of the program. */
  lemma LeftExact(program: Block, i: nat, computed: Computed)
    requires i < |program| && IsCall(program[i])
    ensures var value := ValueOf(program[i].expr.args[0], KeptTo(program, i, computed).vars, computed);
            Loader(value, CleanFunctions(program)) == Left(program, i, computed)
  {
    KeptVars(program, i, computed);
    CleanDeclared(program);
    ProvidedExact(program, i, program[i].expr.args[0], DroppedOf(program), CleanFunctions(program), computed);
    hide KeptTo, Provided, Loader, ValueOf, CleanFunctions, DroppedOf;
  }

  /** A kept call that still registers something. */
  ghost predicate Lingers(program: Block, i: nat, computed: Computed)
    requires i < |program|
  {
    !Drops(program, i) && IsCall(program[i]) && CleanCallee(program, i) == REGISTER && Left(program, i, computed).Some?
  }

  ghost predicate StillUnregisters(program: Block, i: nat)
    requires i < |program|
  {
    !Drops(program, i) && IsCall(program[i]) && CleanCallee(program, i) == UNREGISTER
  }

  lemma KeptNamespace(program: Block, n: nat, computed: Computed)
    requires n <= |program|
    ensures KeptTo(program, n, computed).namespace == NamespaceAt(program, n)
  {
    KeptNamespaceAt(program, n);
    RunsInNamespace(KeptOf(program, n), |KeptOf(program, n)|, CleanFunctions(program), computed);
    hide KeptOf, Run, CleanFunctions;
  }

  lemma KeptQueueStep(program: Block, i: nat, computed: Computed)
    requires i < |program|
    ensures KeptTo(program, i + 1, computed).queue ==
              if Lingers(program, i, computed)
                then Added(KeptTo(program, i, computed).queue, Left(program, i, computed), Prepends(program[i]))
              else if StillUnregisters(program, i)
                then Removed(KeptTo(program, i, computed).queue, Left(program, i, computed))
              else KeptTo(program, i, computed).queue
  {
    KeptStep(program, i, computed);
    KeptNamespace(program, i, computed);
    if IsCall(program[i]) {
      LeftExact(program, i, computed);
    }
    assert |REGISTER| != |UNREGISTER|;
    hide KeptTo, Drops, Left, Callee, Loader, ValueOf, REGISTER, UNREGISTER, RemoveFirst, NamespaceAt, CleanFunctions;
  }

  lemma {:induction false} KeptSilent(program: Block, i: nat, j: nat, computed: Computed)
    requires i <= j <= |program| && forall k :: i <= k < j ==> Drops(program, k) || !IsCall(program[k])
    ensures KeptTo(program, j, computed).queue == KeptTo(program, i, computed).queue
    decreases j
  {
    hide KeptTo, Drops, CleanCallee, Left;
    if i < j {
      KeptSilent(program, i, j - 1, computed);
      KeptQueueStep(program, j - 1, computed);
    }
  }

  lemma KeptAtEnd(program: Block, computed: Computed)
    ensures QueueOf(Cleaned(program), computed) == KeptTo(program, |program|, computed).queue
  {
  }

  lemma RemovedFromNothing()
    ensures forall rule :: Removed([], rule) == []
  {
  }

  lemma {:induction false} NothingLingers(program: Block, n: nat, computed: Computed)
    requires n <= |program| && forall i :: 0 <= i < n ==> !Lingers(program, i, computed)
    ensures KeptTo(program, n, computed).queue == []
    decreases n
  {
    hide Lingers, StillUnregisters, KeptTo, Left, Removed, Added;
    NothingKept(program, computed);
    if n > 0 {
      NothingLingers(program, n - 1, computed);
      KeptQueueStep(program, n - 1, computed);
      RemovedFromNothing();
    }
  }

  /** The cleaned program registers nothing at any time exactly when no kept call lingers. */
  lemma LeftoverExact(program: Block, computed: Computed)
    ensures (forall n :: 0 <= n <= |program| ==> KeptTo(program, n, computed).queue == [])
            <==> forall i :: 0 <= i < |program| ==> !Lingers(program, i, computed)
  {
    if forall i :: 0 <= i < |program| ==> !Lingers(program, i, computed) {
      forall n | 0 <= n <= |program| ensures KeptTo(program, n, computed).queue == [] {
        NothingLingers(program, n, computed);
      }
    }
    if forall n :: 0 <= n <= |program| ==> KeptTo(program, n, computed).queue == [] {
      forall i | 0 <= i < |program| ensures !Lingers(program, i, computed) {
        KeptQueueStep(program, i, computed);
        assert KeptTo(program, i + 1, computed).queue == [];
        hide KeptTo, Drops, CleanCallee, Left;
      }
    }
  }

  lemma GrowingStep(program: Block, i: nat, computed: Computed)
    requires i < |program| && !StillUnregisters(program, i)
    ensures |KeptTo(program, i + 1, computed).queue|
            == |KeptTo(program, i, computed).queue| + if Lingers(program, i, computed) then 1 else 0
  {
    KeptQueueStep(program, i, computed);
    hide KeptTo, Drops, CleanCallee, Left, StillUnregisters;
  }

  lemma {:induction false} LingeringGrows(program: Block, n: nat, computed: Computed)
    requires n <= |program| && forall i :: 0 <= i < |program| ==> !StillUnregisters(program, i)
    ensures (exists i :: 0 <= i < n && Lingers(program, i, computed)) ==> KeptTo(program, n, computed).queue != []
    decreases n
  {
    hide KeptTo, Lingers, StillUnregisters;
    if n > 0 {
      LingeringGrows(program, n - 1, computed);
      assert !StillUnregisters(program, n - 1);
      GrowingStep(program, n - 1, computed);
    }
  }

  /** If no kept call unregisters, running the cleaned program ends with an empty queue
      exactly when no kept call lingers. */
  lemma FinalLeftoverExact(program: Block, computed: Computed)
    requires forall i :: 0 <= i < |program| ==> !StillUnregisters(program, i)
    ensures QueueOf(Cleaned(program), computed) == []
            <==> forall i :: 0 <= i < |program| ==> !Lingers(program, i, computed)
  {
    KeptAtEnd(program, computed);
    LingeringGrows(program, |program|, computed);
    if forall i :: 0 <= i < |program| ==> !Lingers(program, i, computed) {
      NothingLingers(program, |program|, computed);
    }
  }

  // ----- nothing lingers -----

  /** Whether a computed value is a loader does not depend on the variables. */
  ghost predicate Steady(program: Block, computed: Computed) {
    forall e, u, v :: StandsFor(program, computed(e, u), {}).Some? ==> StandsFor(program, computed(e, v), {}).Some?
  }

  /** A closure that is dropped although it is no loader hides one that its variable held. */
  ghost predicate Unmasks(program: Block, i: nat, computed: Computed)
    requires i < |program|
  {
    && program[i].Assign? && Drops(program, i) && ClosureRule(program[i].value).None?
    && Provided(program, i, Variable(program[i].target), {}, computed).Some?
  }

  /** A kept call comes to mean the registering builtin. */
  ghost predicate Unshadows(program: Block, i: nat)
    requires i < |program|
  {
    !Drops(program, i) && IsCall(program[i]) && CleanCallee(program, i) == REGISTER && !Registers(program, i)
  }

  /** Where the kept statements declare a loader, so does the program. */
  lemma NamedStays(program: Block, name: string)
    ensures NamedRule(program, name, DroppedOf(program)).Some? ==> NamedRule(program, name, {}).Some?
  {
    var key := SymbolKey(name);
    LaterNameIsLeftOut(program, |program|, key, DroppedOf(program));
    var all := LastNamed(program, |program|, key, {});
    if all.Some? {
      DroppedKind(program, all.value);
    }
    hide SymbolKey, Drops, LastNamed, FunctionRule, KeyAt, Collected, Classified;
  }

  lemma ValueStays(program: Block, v: RuntimeValue)
    ensures StandsFor(program, v, DroppedOf(program)).Some? ==> StandsFor(program, v, {}).Some?
  {
    if v.TextValue? {
      NamedStays(program, CallableName(v.s));
    }
    hide NamedRule, DroppedOf;
  }

  /** Where the cleaned run has a loader, so has the run. */
  lemma {:induction false} LoaderStays(program: Block, n: nat, e: Expr, computed: Computed)
    requires n <= |program| && Steady(program, computed)
    requires forall i :: 0 <= i < |program| ==> !Unmasks(program, i, computed)
    ensures Provided(program, n, e, DroppedOf(program), computed).Some? ==> Provided(program, n, e, {}, computed).Some?
    decreases n, if e.Variable? then 1 else 0
  {
    if e.Variable? {
      var x := e.name;
      LaterIsLeftOut(program, n, x, DroppedOf(program));
      VariableProvides(program, n, x, DroppedOf(program), computed);
      VariableProvides(program, n, x, {}, computed);
      var kept, all := LastAssign(program, n, x, DroppedOf(program)), LastAssign(program, n, x, {});
      if kept.Some? {
        if kept == all {
          LoaderStays(program, all.value, program[all.value].value, computed);
        } else {
          VariableProvides(program, all.value, x, DroppedOf(program), computed);
          LoaderStays(program, all.value, e, computed);
          DroppedKind(program, all.value);
          ClosureProvides(program, all.value, program[all.value].value, {}, computed);
          hide Provided, Drops, LastAssign, DroppedOf, ClosureRule, Steady, Classified, Collected;
          assert !Unmasks(program, all.value, computed);
        }
      }
    } else {
      ValueProvidedStays(program, n, e, computed);
    }
  }

  lemma ValueProvidedStays(program: Block, n: nat, e: Expr, computed: Computed)
    requires n <= |program| && Steady(program, computed) && !e.Variable?
    ensures Provided(program, n, e, DroppedOf(program), computed).Some? ==> Provided(program, n, e, {}, computed).Some?
  {
    var u, v := VarsAt(program, n, DroppedOf(program), computed), VarsAt(program, n, {}, computed);
    ValueStays(program, computed(e, u));
    assert StandsFor(program, computed(e, u), {}).Some? ==> StandsFor(program, computed(e, v), {}).Some?;
    if e.StringLiteral? {
      NamedStays(program, CallableName(e.s));
    }
    hide NamedRule, DroppedOf, StandsFor, Steady, ClosureRule, VarsAt;
  }

  /** No call is missed, and dropping statements brings no loader to light. */
  ghost predicate CleansUp(program: Block, computed: Computed) {
    && Steady(program, computed)
    && forall i :: 0 <= i < |program| ==>
        !Missed(program, i, computed) && !Unmasks(program, i, computed) && !Unshadows(program, i)
  }

  lemma HeardIsDropped(program: Block, i: nat)
    requires i < |program| && StraightLine(program) && Registers(program, i) && Heard(program, i).Some?
    ensures Drops(program, i)
  {
    BuiltinAt(program, i);
    DroppedKind(program, i);
    HeardExact(program, i);
    hide CollectedAfter, IsBuiltinCall, ResolveCallable, CalleeAt, Drops, StraightLine, LiteralBool, Heard;
  }

  lemma NoneLingers(program: Block, i: nat, computed: Computed)
    requires i < |program| && StraightLine(program) && CleansUp(program, computed)
    ensures !Lingers(program, i, computed)
  {
    hide Drops, CleanCallee, CalleeAt, StraightLine, Steady, Unmasks, Heard, Provided, DroppedOf;
    if Lingers(program, i, computed) {
      LoaderStays(program, i, program[i].expr.args[0], computed);
      assert !Missed(program, i, computed) && !Unshadows(program, i);
      HeardIsDropped(program, i);
    }
  }

  /** What is left after the collection registers nothing, if no call was missed. */
  lemma NothingLeftToRegister(program: Block, computed: Computed)
    requires StraightLine(program) && CleansUp(program, computed)
    ensures QueueOf(Cleaned(program), computed) == []
  {
    forall i | 0 <= i < |program| ensures !Lingers(program, i, computed) {
      NoneLingers(program, i, computed);
    }
    NothingLingers(program, |program|, computed);
    KeptAtEnd(program, computed);
  }

  // ----- when loaders come to light -----

  lemma {:induction false} KeyIsDeclared(program: Block, n: nat, key: string)
    requires n <= |program| && key in Functions(program, n)
    ensures exists i :: DeclaresNamed(program, i, key)
  {
    if program[n - 1].FunctionDecl? && KeyAt(program, n - 1) == key {
      assert DeclaresNamed(program, n - 1, key);
    } else {
      KeyIsDeclared(program, n - 1, key);
    }
  }

  /** No declared function is called like the registering builtin, in any namespace. */
  ghost predicate NoLookalike(program: Block) {
    forall i :: 0 <= i < |program| && program[i].FunctionDecl? ==>
      PlainName(program[i].fname) && SymbolKey(program[i].fname) != REGISTER
  }

  lemma LookalikeNeeded(program: Block, namespace: string, i: nat)
    requires NoLookalike(program) && i < |program| && program[i].FunctionDecl? && namespace != ""
    ensures KeyAt(program, i) != Lowercase(namespace) + "\\" + REGISTER
  {
    var f, ns := program[i].fname, NamespaceAt(program, i);
    RegisterName();
    LowercaseBackslash(f);
    if ns.Some? && ns.value != "" {
      QualifiedKey(ns.value, f);
    }
    hide Lowercase, NamespaceAt, REGISTER;
    if KeyAt(program, i) == Lowercase(namespace) + "\\" + REGISTER {
      var key := Lowercase(namespace) + "\\" + REGISTER;
      assert key[|Lowercase(namespace)|] == '\\';
      LastSegment(Lowercase(ns.value), Lowercase(f), Lowercase(namespace), REGISTER);
    }
  }

  lemma LookalikeKey(name: Name, namespace: string)
    requires namespace != "" && SymbolKey(name.text) == REGISTER
    ensures SymbolKey(CanonicalName(Some(namespace), name.text)) == Lowercase(namespace) + "\\" + REGISTER
  {
    QualifiedKey(namespace, name.text);
  }

  /** A call changes its meaning only if a function of its namespace hid the builtin. */
  lemma CalleeChanges(name: Name, namespace: Option<string>, a: Declared, b: Declared, builtin: string)
    requires PlainName(builtin) && Callee(name, namespace, a) == builtin && Callee(name, namespace, b) != builtin
    ensures namespace.Some? && namespace.value != "" && SymbolKey(name.text) == builtin
    ensures SymbolKey(CanonicalName(namespace, name.text)) in b
  {
    if namespace.Some? && namespace.value != "" {
      QualifiedKey(namespace.value, name.text);
    }
    hide Lowercase;
  }

  lemma ShadowIsDeclared(program: Block, name: Name, ns: Option<string>)
    requires Callee(name, ns, CleanFunctions(program)) == REGISTER
             && Callee(name, ns, AllFunctions(program)) != REGISTER
    ensures ns.Some? && ns.value != "" && SymbolKey(name.text) == REGISTER
    ensures exists k :: DeclaresNamed(program, k, SymbolKey(CanonicalName(ns, name.text)))
  {
    RegisterName();
    hide Functions, Lowercase, REGISTER, CleanFunctions, Callee, SymbolKey, CanonicalName;
    CalleeChanges(name, ns, CleanFunctions(program), AllFunctions(program), REGISTER);
    KeyIsDeclared(program, |program|, SymbolKey(CanonicalName(ns, name.text)));
  }

  /** Without such a function no call changes its meaning by what is dropped. */
  lemma NothingIsUnshadowed(program: Block, i: nat)
    requires i < |program| && NoLookalike(program)
    ensures !Unshadows(program, i)
  {
    hide Functions, Lowercase, REGISTER, CleanFunctions, Callee, SymbolKey, CanonicalName, NamespaceAt, NoLookalike,
         KeyAt, Drops;
    if Unshadows(program, i) {
      var name, ns := program[i].expr.callee, NamespaceAt(program, i);
      ShadowIsDeclared(program, name, ns);
      LookalikeKey(name, ns.value);
      var k :| DeclaresNamed(program, k, SymbolKey(CanonicalName(ns, name.text)));
      LookalikeNeeded(program, ns.value, k);
    }
  }

  lemma UnboundIsKept(program: Block, i: nat, x: string)
    requires i < |program| && IsCall(program[i]) && program[i].expr.args[0] == Variable(x) && Heard(program, i).None?
    ensures !Drops(program, i)
  {
    DroppedKind(program, i);
    HeardExact(program, i);
    hide CollectedAfter, IsBuiltinCall, Drops, FunctionRules, DeclaredKeys, NamespaceAt, Heard;
  }

  /** `$f = 'load'; ... $f = function ($a, $b) {}; ... spl_autoload_register($f);`, where a
      closure in `$f` was collected elsewhere: the cleaned program registers `load`, which the
      program does not. */
  lemma MaskedLoaderLingers(program: Block, i: nat, x: string, computed: Computed)
    requires i < |program| && IsCall(program[i]) && program[i].expr.args[0] == Variable(x)
    requires CleanCallee(program, i) == REGISTER
    requires LastAssign(program, i, x, {}).Some?
    requires var e := program[LastAssign(program, i, x, {}).value].value; e.Closure? && ClosureRule(e).None?
    requires Provided(program, i, Variable(x), DroppedOf(program), computed).Some?
    ensures Lingers(program, i, computed) && Meant(program, i, computed).None?
  {
    var k := LastAssign(program, i, x, {}).value;
    VariableProvides(program, i, x, {}, computed);
    ClosureProvides(program, k, program[k].value, {}, computed);
    UnboundIsKept(program, i, x);
    hide Provided, Drops, Collected, CleanCallee, LastAssign, DroppedOf, ClosureRule;
  }
}
