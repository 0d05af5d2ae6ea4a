/** Loaders named by strings: the collection looks up the spelling of a declaration, the
    run its full name in any letter case. */
module RegistrationNames {
  import opened Prelude
  import opened Ast
  import opened Names
  import opened Interpret
  import opened Registration
  import opened RegistrationRun
  import opened RegistrationText
  import opened RegistrationQueue

  /** The loader that the collection finds for a callable string. */
  function HeardName(program: Block, text: string): Option<Rule> {
    var rules, name := FunctionRules(program, |program|), TrimBackslashes(text);
    if name in rules then Some(rules[name].rule) else None
  }

  /** The loader that a run finds for a callable string. */
  function MeantName(program: Block, text: string): Option<Rule> {
    RuleAtKey(AllFunctions(program), SymbolKey(CallableName(text)))
  }

  /** A string is heard as meant exactly when the last loader of that spelling, without leading
      backslashes, and the last function of that full name, without one leading backslash,
      provide the same rule, or neither provides one. */
  lemma NameHeardExact(program: Block, text: string)
    ensures HeardName(program, text) == MeantName(program, text)
            <==> RuleAt(program, LastSpelled(program, |program|, TrimBackslashes(text)))
                 == RuleAt(program, LastNamed(program, |program|, SymbolKey(CallableName(text)), {}))
  {
    RulesBySpelling(program, |program|, TrimBackslashes(text));
    FunctionsByName(program, |program|, SymbolKey(CallableName(text)));
    hide FunctionRules, Functions, LastSpelled, LastNamed, TrimBackslashes, CallableName, SymbolKey, FunctionRule;
  }

  // ----- where no name is declared twice -----

  ghost predicate DistinctNames(program: Block) {
    && (forall i, j :: 0 <= i < j < |program| && program[i].FunctionDecl? && program[j].FunctionDecl? ==>
          SymbolKey(program[i].fname) != SymbolKey(program[j].fname))
    && (forall i :: 0 <= i < |program| && program[i].FunctionDecl? ==> PlainName(program[i].fname))
  }

  /** The name that is left without leading backslashes is the last segment of the full name. */
  lemma {:induction false} TrimmedIsLast(text: string) returns (before: Option<string>)
    requires PlainName(TrimBackslashes(text))
    ensures before.None? ==> CallableName(text) == TrimBackslashes(text)
    ensures before.Some? ==> CallableName(text) == before.value + "\\" + TrimBackslashes(text)
  {
    var name := CallableName(text);
    if name == "" || name[0] != '\\' {
      before := None;
    } else {
      var inner := TrimmedIsLast(name);
      before := Some(if inner.None? then "" else "\\" + inner.value);
      assert TrimBackslashes(name) == TrimBackslashes(text);
      assert name == "\\" + CallableName(name);
    }
  }

  lemma KeyOfLast(namespace: Option<string>, fname: string, before: Option<string>, last: string)
    requires PlainName(fname) && PlainName(last)
    requires SymbolKey(CanonicalName(namespace, fname))
             == SymbolKey(if before.None? then last else before.value + "\\" + last)
    ensures SymbolKey(fname) == SymbolKey(last)
  {
    LowercaseBackslash(fname);
    LowercaseBackslash(last);
    if before.Some? {
      QualifiedKey(before.value, last);
    }
    if namespace.Some? && namespace.value != "" {
      QualifiedKey(namespace.value, fname);
    }
    hide Lowercase;
    if before.Some? && namespace.Some? && namespace.value != "" {
      LastSegment(Lowercase(namespace.value), Lowercase(fname), Lowercase(before.value), Lowercase(last));
    }
  }

  /** Spelled like a declaration, and named like another: these are the same. */
  lemma SameDeclaration(program: Block, i: nat, j: nat, text: string)
    requires DistinctNames(program) && i < |program| && j < |program| && program[i].FunctionDecl?
             && program[j].FunctionDecl?
    requires program[i].fname == TrimBackslashes(text) && DeclaresNamed(program, j, SymbolKey(CallableName(text)))
    ensures i == j
  {
    var before := TrimmedIsLast(text);
    KeyOfLast(NamespaceAt(program, j), program[j].fname, before, TrimBackslashes(text));
  }

  /** A string is heard as meant exactly when each loader is either both spelled like it and
      fully named by it, or neither: declared globally in just that spelling. */
  lemma DistinctNameHeardExact(program: Block, text: string)
    requires DistinctNames(program)
    ensures HeardName(program, text) == MeantName(program, text)
            <==> forall i :: DeclaresLoader(program, i) ==>
                   (program[i].fname == TrimBackslashes(text)
                    <==> DeclaresNamed(program, i, SymbolKey(CallableName(text))))
  {
    var n, name, key := |program|, TrimBackslashes(text), SymbolKey(CallableName(text));
    var a, b := LastSpelled(program, n, name), LastNamed(program, n, key, {});
    NameHeardExact(program, text);
    hide SymbolKey, KeyAt, HeardName, MeantName, FunctionRule, DeclaresNamed, TrimBackslashes, CallableName;
    if a.Some? && b.Some? {
      assert DeclaresNamed(program, b.value, key);
      SameDeclaration(program, a.value, b.value, text);
    }
    forall i | DeclaresLoader(program, i) && program[i].fname == name ensures a == Some(i) {
      OneSpelling(program, i, a.value, name);
    }
    forall i | DeclaresLoader(program, i) && DeclaresNamed(program, i, key) ensures b == Some(i) {
      OneKey(program, i, b.value, key);
    }
  }

  lemma OneSpelling(program: Block, i: nat, j: nat, name: string)
    requires DistinctNames(program) && i < |program| && j < |program| && program[i].FunctionDecl?
             && program[j].FunctionDecl?
    requires program[i].fname == name == program[j].fname
    ensures i == j
  {
  }

  lemma {:induction false} LastSegment(a: string, x: string, b: string, y: string)
    requires PlainName(x) && PlainName(y) && a + "\\" + x == b + "\\" + y
    ensures x == y
  {
    var text := a + "\\" + x;
    assert text[|a|] == '\\' && text[|b|] == '\\';
    assert forall k :: |a| < k < |text| ==> text[k] == x[k - |a| - 1];
    assert forall k :: |b| < k < |text| ==> text[k] == y[k - |b| - 1];
    assert |a| == |b|;
    assert x == text[|a| + 1..] == y;
  }

  lemma OneKey(program: Block, i: nat, j: nat, key: string)
    requires DistinctNames(program) && DeclaresNamed(program, i, key) && DeclaresNamed(program, j, key)
    ensures i == j
  {
    var f, g, ns, ms := program[i].fname, program[j].fname, NamespaceAt(program, i), NamespaceAt(program, j);
    LowercaseBackslash(f);
    LowercaseBackslash(g);
    if ns.Some? && ns.value != "" {
      QualifiedKey(ns.value, f);
    }
    if ms.Some? && ms.value != "" {
      QualifiedKey(ms.value, g);
    }
    hide Lowercase, NamespaceAt;
    if ns.Some? && ns.value != "" && ms.Some? && ms.value != "" {
      LastSegment(Lowercase(ns.value), Lowercase(f), Lowercase(ms.value), Lowercase(g));
    }
    assert SymbolKey(f) == SymbolKey(g);
  }

  // ----- names that are not heard as meant -----

  function Loading(f: string, p: string): Stmt {
    FunctionDecl(f, [p], None, [])
  }

  /** `\spl_autoload_register('...');` */
  function Registering(text: string): Stmt {
    ExprStmt(FunctionCall(Name(FullyQualified, "spl_autoload_register"), [StringLiteral(text)]))
  }

  lemma NameCall(program: Block, i: nat, text: string, computed: Computed)
    requires i < |program| && IsCall(program[i]) && program[i].expr.args[0] == StringLiteral(text)
    ensures Heard(program, i) == RuleAt(program, LastSpelled(program, |program|, TrimBackslashes(text)))
    ensures Meant(program, i, computed)
            == RuleAt(program, LastNamed(program, |program|, SymbolKey(CallableName(text)), {}))
  {
    hide TrimBackslashes, CallableName, FunctionRule, LastSpelled, LastNamed, SymbolKey, NamespaceAt;
  }

  lemma NameRegisters(program: Block, i: nat, text: string)
    requires i < |program| && program[i] == Registering(text)
    ensures Registers(program, i) && Straight(program[i]) && program[i].expr.args == [StringLiteral(text)]
  {
    RegisterName();
    hide Lowercase, REGISTER, Functions, NamespaceAt;
  }

  lemma RegistersIsCall(program: Block, i: nat)
    requires i < |program| && Registers(program, i)
    ensures IsCall(program[i])
  {
    hide CalleeAt;
  }

  predicate Declares(s: Stmt) {
    s.NamespaceDecl? || s.FunctionDecl?
  }

  lemma DeclarationsAreStraight(declarations: Block, s: Stmt)
    requires (forall d :: d in declarations ==> Declares(d)) && Straight(s)
    ensures StraightLine(declarations + [s])
    ensures forall k :: 0 <= k < |declarations| ==> !IsCall((declarations + [s])[k])
  {
    assert forall d :: Declares(d) ==> Straight(d) && !IsCall(d);
    hide Straight, IsCall, Declares;
    assert forall k :: 0 <= k < |declarations| ==> (declarations + [s])[k] == declarations[k];
  }

  /** A program of declarations that registers a name in its last statement. */
  lemma OnlyName(declarations: Block, text: string, computed: Computed)
    requires forall s :: s in declarations ==> Declares(s)
    ensures var program := declarations + [Registering(text)];
            var name, key := TrimBackslashes(text), SymbolKey(CallableName(text));
            && Collected(program).chain == Single(RuleAt(program, LastSpelled(program, |program|, name)))
            && QueueOf(program, computed) == Single(RuleAt(program, LastNamed(program, |program|, key, {})))
  {
    hide *;
    var program := declarations + [Registering(text)];
    NameRegisters(program, |declarations|, text);
    RegistersIsCall(program, |declarations|);
    NameCall(program, |declarations|, text, computed);
    DeclarationsAreStraight(declarations, Registering(text));
    OnlyCall(program, |declarations|, computed);
  }

  lemma LoaderAt(declarations: Block, s: Stmt, f: string, p: string, name: string, key: string)
    requires |declarations| > 0 && declarations[|declarations| - 1] == Loading(f, p) && !s.FunctionDecl?
    requires forall k :: 0 <= k < |declarations| - 1 ==> !declarations[k].FunctionDecl?
    ensures var program, k := declarations + [s], |declarations| - 1;
            && RuleAt(program, LastSpelled(program, |program|, name)) == (if name == f then Some(Rule(p, [])) else None)
            && RuleAt(program, LastNamed(program, |program|, key, {}))
               == (if KeyAt(program, k) == key then Some(Rule(p, [])) else None)
  {
    var program, k := declarations + [s], |declarations| - 1;
    hide SymbolKey, NamespaceAt, LastSpelled, LastNamed, KeyAt, CanonicalName;
    assert FunctionRule(program[k]) == Some(Rule(p, []));
    assert DeclaresLoader(program, k) && program[k].fname == f;
    assert forall i :: DeclaresNamed(program, i, key) ==> i == k;
  }

  /** The name after a single loader, by its spelling and by its full name. */
  lemma OnlyLoader(declarations: Block, f: string, p: string, text: string, computed: Computed)
    requires forall s :: s in declarations ==> Declares(s)
    requires |declarations| > 0 && declarations[|declarations| - 1] == Loading(f, p)
    requires forall k :: 0 <= k < |declarations| - 1 ==> !declarations[k].FunctionDecl?
    ensures var program := declarations + [Registering(text)];
            && Collected(program).chain == (if TrimBackslashes(text) == f then [Rule(p, [])] else [])
            && QueueOf(program, computed)
               == (if KeyAt(program, |declarations| - 1) == SymbolKey(CallableName(text)) then [Rule(p, [])] else [])
  {
    LoaderAt(declarations, Registering(text), f, p, TrimBackslashes(text), SymbolKey(CallableName(text)));
    hide Registering, Collected, QueueOf, RuleAt, LastSpelled, LastNamed, SymbolKey, KeyAt, TrimBackslashes,
         CallableName, Declares;
    OnlyName(declarations, text, computed);
  }

  /** Begins with no backslash. */
  predicate Unprefixed(name: string) {
    name == "" || name[0] != '\\'
  }

  lemma UnprefixedIsName(name: string)
    requires Unprefixed(name)
    ensures TrimBackslashes(name) == name == CallableName(name)
  {
  }

  /** `function load($c) {} spl_autoload_register('LOAD');` is missed. */
  lemma OtherCaseIsMissed(f: string, p: string, name: string, computed: Computed)
    requires SymbolKey(name) == SymbolKey(f) && name != f && Unprefixed(name)
    ensures var program := [Loading(f, p)] + [Registering(name)];
            Collected(program).chain == [] && QueueOf(program, computed) == [Rule(p, [])]
  {
    UnprefixedIsName(name);
    hide SymbolKey, Collected, QueueOf, TrimBackslashes, CallableName, Registering;
    OnlyLoader([Loading(f, p)], f, p, name, computed);
    assert NamespaceAt([Loading(f, p)] + [Registering(name)], 0) == None;
  }

  /** `function load($c) {} spl_autoload_register('\\\\load');`, with two backslashes in the
      string, is collected; to PHP that is no callable. */
  lemma DoubleBackslashIsMisheard(f: string, p: string, computed: Computed)
    requires PlainName(f)
    ensures var program := [Loading(f, p)] + [Registering("\\\\" + f)];
            Collected(program).chain == [Rule(p, [])] && QueueOf(program, computed) == []
  {
    var text := "\\\\" + f;
    UnprefixedIsName(f);
    assert text[1..] == "\\" + f && ("\\" + f)[1..] == f;
    assert TrimBackslashes(text) == f by {
      assert TrimBackslashes(text[1..]) == f;
    }
    assert CallableName(text) == "\\" + f && ("\\" + f)[0] == '\\';
    LowercaseBackslash("\\" + f);
    LowercaseBackslash(f);
    OnlyLoader([Loading(f, p)], f, p, text, computed);
    hide Lowercase, Collected, QueueOf, TrimBackslashes, CallableName, Registering;
    assert NamespaceAt([Loading(f, p)] + [Registering(text)], 0) == None;
  }

  lemma KeyInNamespace(namespace: string, f: string, p: string, s: Stmt)
    requires namespace != ""
    ensures KeyAt([NamespaceDecl(Some(namespace)), Loading(f, p)] + [s], 1) == SymbolKey(namespace + "\\" + f)
  {
    hide SymbolKey;
    assert NamespaceAt([NamespaceDecl(Some(namespace)), Loading(f, p)] + [s], 1) == Some(namespace);
  }

  /** `namespace App; function load($c) {} \spl_autoload_register('App\load');` is missed. */
  lemma FullNameIsMissed(namespace: string, f: string, p: string, computed: Computed)
    requires namespace != "" && namespace[0] != '\\'
    ensures var program := [NamespaceDecl(Some(namespace)), Loading(f, p)] + [Registering(namespace + "\\" + f)];
            Collected(program).chain == [] && QueueOf(program, computed) == [Rule(p, [])]
  {
    var name := namespace + "\\" + f;
    assert |name| > |f| && name[0] == namespace[0];
    UnprefixedIsName(name);
    KeyInNamespace(namespace, f, p, Registering(name));
    hide SymbolKey, KeyAt, Collected, QueueOf, TrimBackslashes, CallableName, Registering;
    OnlyLoader([NamespaceDecl(Some(namespace)), Loading(f, p)], f, p, name, computed);
  }

  /** `namespace App; function load($c) {} \spl_autoload_register('load');` is collected,
      although there is no function of that name. */
  lemma ShortNameIsMisheard(namespace: string, f: string, p: string, computed: Computed)
    requires namespace != "" && PlainName(f)
    ensures var program := [NamespaceDecl(Some(namespace)), Loading(f, p)] + [Registering(f)];
            Collected(program).chain == [Rule(p, [])] && QueueOf(program, computed) == []
  {
    LowercaseBackslash(f);
    QualifiedKey(namespace, f);
    UnprefixedIsName(f);
    assert SymbolKey(namespace + "\\" + f) != SymbolKey(f);
    KeyInNamespace(namespace, f, p, Registering(f));
    hide SymbolKey, KeyAt, Collected, QueueOf, TrimBackslashes, CallableName, Registering;
    OnlyLoader([NamespaceDecl(Some(namespace)), Loading(f, p)], f, p, f, computed);
  }

  /** `$f = 'load'; ... spl_autoload_register($f);` is missed. */
  lemma NamedByVariableIsMissed(program: Block, i: nat, x: string, text: string, computed: Computed)
    requires i < |program| && HandsOver(program, i, x) && LastAssign(program, i, x, {}).Some?
    requires program[LastAssign(program, i, x, {}).value].value == StringLiteral(text)
    requires MeantName(program, text).Some?
    ensures Missed(program, i, computed)
  {
    FunctionsByName(program, |program|, SymbolKey(CallableName(text)));
    hide CalleeAt, Functions, HandsOver, Missed, LastAssign, FunctionRule, LastNamed, CallableName, SymbolKey;
    AssignedLoaderIsMissed(program, i, x, computed);
  }
}
