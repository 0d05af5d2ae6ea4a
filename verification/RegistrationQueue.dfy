/** The collected rule chain against the queue that a run of the program builds. */
module RegistrationQueue {
  import opened Prelude
  import opened Ast
  import opened Termination
  import opened Interpret
  import opened Registration
  import opened RegistrationRun
  import opened RegistrationText

  // ----- one call -----

  predicate ReadsPrepend(s: Stmt)
    requires IsCall(s)
  {
    |s.expr.args| > 2 && LiteralBool(s.expr.args[2])
  }

  /** A literal flag is misread exactly if it is a true string or a nonzero float. */
  lemma FlagReadExact(e: Expr)
    requires IsLiteral(e)
    ensures LiteralBool(e) == FlagTruth(e) <==>
              !(e.StringLiteral? && e.s != "" && e.s != "0") && !(e.FloatLiteral? && !FloatIsZero(e.bits))
  {
  }

  predicate Absent(rule: Option<Rule>, queue: seq<Rule>) {
    rule.Some? ==> rule.value !in queue
  }

  /** The collection does to its chain what the run does to its queue: it hears what is meant,
      and the same flag; a flag does not matter in a chain of the same rules, and what is
      removed does not matter if it is not there. */
  predicate TakenRight(program: Block, i: nat, computed: Computed)
    requires i < |program|
  {
    var chain := CollectedTo(program, i).chain;
    && (Registers(program, i) ==>
          && Heard(program, i) == Meant(program, i, computed)
          && (|| Heard(program, i).None?
              || ReadsPrepend(program[i]) == Prepends(program[i])
              || forall r :: r in chain ==> r == Heard(program, i).value))
    && (Unregisters(program, i) ==>
          || Heard(program, i) == Meant(program, i, computed)
          || (Absent(Heard(program, i), chain) && Absent(Meant(program, i, computed), chain)))
  }

  // ----- the effect of a step on either side -----

  lemma ApplyEffect(c: Collection, call: Call, idx: nat)
    ensures Apply(c, call, idx).bindings == c.bindings
    ensures Apply(c, call, idx).chain ==
              if call.Register? then Added(c.chain, Some(call.rule), call.prepend)
              else if call.Unregister? then Removed(c.chain, Some(call.rule))
              else c.chain
  {
  }

  lemma ClassifiedCall(s: Stmt, namespace: Option<string>, c: Collection, idx: nat, tables: Tables)
    requires IsCall(s)
    ensures var next := Step(c, s, idx, namespace, tables);
            var heard := ResolvedRule(ResolveCallable(s.expr.args[0], c.bindings, tables.functions));
            && next.bindings == c.bindings
            && next.chain ==
                 if IsBuiltinCall(s.expr.callee, namespace, tables.local, REGISTER)
                   then Added(c.chain, heard, ReadsPrepend(s))
                 else if IsBuiltinCall(s.expr.callee, namespace, tables.local, UNREGISTER) then Removed(c.chain, heard)
                 else c.chain
  {
    hide IsBuiltinCall, ResolveCallable, Apply, RemoveFirst, LiteralBool;
    var call := ClassifyCall(s, namespace, c.bindings, tables);
    if call.Some? {
      ApplyEffect(c, call.value, idx);
    }
  }

  lemma ChainStep(program: Block, i: nat)
    requires i < |program| && StraightLine(program)
    ensures CollectedTo(program, i + 1).chain ==
              if Registers(program, i)
                then Added(CollectedTo(program, i).chain, Heard(program, i), ReadsPrepend(program[i]))
              else if Unregisters(program, i) then Removed(CollectedTo(program, i).chain, Heard(program, i))
              else CollectedTo(program, i).chain
  {
    var s, c := program[i], CollectedTo(program, i);
    assert CollectedTo(program, i + 1) == Step(c, s, i, NamespaceAt(program, i), TablesOf(program));
    if IsCall(s) {
      BuiltinAt(program, i);
      HeardExact(program, i);
      hide CalleeAt, IsBuiltinCall, CollectedAfter, Step, ResolveCallable, RemoveFirst, Heard;
      ClassifiedCall(s, NamespaceAt(program, i), c, i, TablesOf(program));
    } else {
      hide CollectedAfter;
    }
  }

  lemma QueueStep(program: Block, i: nat, computed: Computed)
    requires i < |program|
    ensures RunTo(program, i + 1, computed).queue ==
              if Registers(program, i)
                then Added(RunTo(program, i, computed).queue, Meant(program, i, computed), Prepends(program[i]))
              else if Unregisters(program, i)
                then Removed(RunTo(program, i, computed).queue, Meant(program, i, computed))
              else RunTo(program, i, computed).queue
  {
    var m := RunTo(program, i, computed);
    RunsInNamespace(program, i, AllFunctions(program), computed);
    if IsCall(program[i]) {
      MeantExact(program, i, computed);
    }
    assert RunTo(program, i + 1, computed) == Execute(m, program[i], AllFunctions(program), computed);
    assert |REGISTER| != |UNREGISTER|;
    hide Run, Meant, Callee, Loader, ValueOf, REGISTER, UNREGISTER, RemoveFirst, NamespaceAt, Functions;
  }

  // ----- when two effects are the same -----

  lemma {:induction false} Rotated(queue: seq<Rule>, r: Rule)
    ensures [r] + queue == queue + [r] <==> forall x :: x in queue ==> x == r
  {
    if queue != [] {
      var rest := queue[1..];
      assert queue == [queue[0]] + rest;
      Rotated(rest, r);
      if [r] + queue == queue + [r] {
        assert ([r] + queue)[0] == r && (queue + [r])[0] == queue[0];
        assert ([r] + queue)[1..] == queue && (queue + [r])[1..] == rest + [r];
      }
      if forall x :: x in queue ==> x == r {
        assert queue[0] in queue && forall x :: x in rest ==> x in queue;
        assert queue + [r] == [r] + (rest + [r]);
      }
    }
  }

  lemma AddedExact(queue: seq<Rule>, a: Option<Rule>, p: bool, b: Option<Rule>, q: bool)
    ensures Added(queue, a, p) == Added(queue, b, q) <==>
              a == b && (a.None? || p == q || forall r :: r in queue ==> r == a.value)
  {
    assert |Added(queue, a, p)| == |queue| + (if a.Some? then 1 else 0);
    assert |Added(queue, b, q)| == |queue| + (if b.Some? then 1 else 0);
    if a.Some? && b.Some? {
      assert multiset(Added(queue, a, p)) == multiset(queue) + multiset{a.value};
      assert multiset(Added(queue, b, q)) == multiset(queue) + multiset{b.value};
      if Added(queue, a, p) == Added(queue, b, q) {
        assert (multiset(queue) + multiset{a.value})[a.value] == multiset(queue)[a.value] + 1;
      }
      Rotated(queue, a.value);
    }
  }

  /** How often a rule is left. */
  lemma RemovedCount(queue: seq<Rule>, rule: Option<Rule>, r: Rule)
    ensures multiset(Removed(queue, rule))[r]
            == multiset(queue)[r] - if rule == Some(r) && r in queue then 1 else 0
  {
    if !Absent(rule, queue) {
      var i := Position(queue, rule.value).value;
      assert queue == queue[..i] + [queue[i]] + queue[i + 1..];
    }
  }

  lemma RemovedExact(queue: seq<Rule>, a: Option<Rule>, b: Option<Rule>)
    ensures Removed(queue, a) == Removed(queue, b) <==> a == b || (Absent(a, queue) && Absent(b, queue))
  {
    hide Removed;
    forall r
      ensures multiset(Removed(queue, a))[r] == multiset(queue)[r] - if a == Some(r) && r in queue then 1 else 0
    {
      RemovedCount(queue, a, r);
    }
    forall r
      ensures multiset(Removed(queue, b))[r] == multiset(queue)[r] - if b == Some(r) && r in queue then 1 else 0
    {
      RemovedCount(queue, b, r);
    }
    if Absent(a, queue) && Absent(b, queue) {
      RemovedAbsent(queue, a);
      RemovedAbsent(queue, b);
    }
  }

  lemma RemovedAbsent(queue: seq<Rule>, rule: Option<Rule>)
    requires Absent(rule, queue)
    ensures Removed(queue, rule) == queue
  {
  }

  // ----- the chain is the queue -----

  lemma StepExact(program: Block, i: nat, computed: Computed)
    requires i < |program| && StraightLine(program)
             && CollectedTo(program, i).chain == RunTo(program, i, computed).queue
    ensures CollectedTo(program, i + 1).chain == RunTo(program, i + 1, computed).queue
            <==> TakenRight(program, i, computed)
  {
    ChainStep(program, i);
    QueueStep(program, i, computed);
    hide CollectedTo, RunTo, Added, Removed, Heard, Meant, Absent, CalleeAt, StraightLine, REGISTER, UNREGISTER,
         ReadsPrepend, Prepends;
    NotBoth(program, i);
    var queue := RunTo(program, i, computed).queue;
    if Registers(program, i) {
      AddedExact(queue, Heard(program, i), ReadsPrepend(program[i]), Meant(program, i, computed), Prepends(program[i]));
    } else if Unregisters(program, i) {
      RemovedExact(queue, Heard(program, i), Meant(program, i, computed));
    }
  }

  lemma NotBoth(program: Block, i: nat)
    requires i < |program|
    ensures !(Registers(program, i) && Unregisters(program, i))
  {
    assert |REGISTER| != |UNREGISTER|;
    hide CalleeAt;
  }

  ghost predicate InStep(program: Block, n: nat, computed: Computed)
    requires n <= |program|
  {
    CollectedTo(program, n).chain == RunTo(program, n, computed).queue
  }

  lemma {:induction false} TakenRightInStep(program: Block, n: nat, computed: Computed)
    requires n <= |program| && StraightLine(program)
    requires forall i :: 0 <= i < n ==> TakenRight(program, i, computed)
    ensures InStep(program, n, computed)
  {
    hide TakenRight, StraightLine, CollectedTo, RunTo;
    StartsEmpty(program, computed);
    if n > 0 {
      TakenRightInStep(program, n - 1, computed);
      StepExact(program, n - 1, computed);
    }
  }

  /** The chain is the queue after every statement exactly when every call is taken right. */
  lemma ThroughoutExact(program: Block, computed: Computed)
    requires StraightLine(program)
    ensures (forall n :: 0 <= n <= |program| ==> InStep(program, n, computed))
            <==> forall i :: 0 <= i < |program| ==> TakenRight(program, i, computed)
  {
    hide TakenRight, StraightLine;
    if forall i :: 0 <= i < |program| ==> TakenRight(program, i, computed) {
      forall n | 0 <= n <= |program| ensures InStep(program, n, computed) {
        TakenRightInStep(program, n, computed);
      }
    }
    if forall n :: 0 <= n <= |program| ==> InStep(program, n, computed) {
      forall i | 0 <= i < |program| ensures TakenRight(program, i, computed) {
        assert InStep(program, i, computed) && InStep(program, i + 1, computed);
        StepExact(program, i, computed);
      }
    }
  }

  /** The collected chain is the queue that running the program builds. */
  lemma ChainIsQueue(program: Block, computed: Computed)
    requires StraightLine(program) && forall i :: 0 <= i < |program| ==> TakenRight(program, i, computed)
    ensures Collected(program).chain == QueueOf(program, computed)
  {
    hide TakenRight, StraightLine;
    TakenRightInStep(program, |program|, computed);
  }

  // ----- exactly when, without unregister calls -----

  /** The collection hears nothing where the run has a loader. */
  predicate Missed(program: Block, i: nat, computed: Computed)
    requires i < |program|
  {
    (Registers(program, i) || Unregisters(program, i)) && Heard(program, i).None? && Meant(program, i, computed).Some?
  }

  /** Names of functions are heard as meant, and flags are read as meant. */
  predicate ReadsRight(program: Block, i: nat, computed: Computed)
    requires i < |program|
  {
    Registers(program, i) ==>
      && (program[i].expr.args[0].StringLiteral? && Heard(program, i).Some?
        ==> Meant(program, i, computed) == Heard(program, i))
      && ReadsPrepend(program[i]) == Prepends(program[i])
  }

  lemma HeardOrMissed(program: Block, i: nat, computed: Computed)
    requires i < |program| && Registers(program, i) && ReadsRight(program, i, computed)
    ensures Heard(program, i).Some? ==> Meant(program, i, computed) == Heard(program, i)
    ensures !Missed(program, i, computed) ==> TakenRight(program, i, computed)
  {
    NotBoth(program, i);
    if !program[i].expr.args[0].StringLiteral? {
      HeardIsMeant(program, i, computed);
    }
    hide Heard, Meant, RunTo, Prepends, ReadsPrepend;
  }

  lemma MissedStep(program: Block, i: nat, computed: Computed)
    requires i < |program| && StraightLine(program) && !Unregisters(program, i) && ReadsRight(program, i, computed)
    ensures |CollectedTo(program, i + 1).chain| - |CollectedTo(program, i).chain|
            == |RunTo(program, i + 1, computed).queue| - |RunTo(program, i, computed).queue|
               - if Missed(program, i, computed) then 1 else 0
  {
    ChainStep(program, i);
    QueueStep(program, i, computed);
    if Registers(program, i) {
      HeardOrMissed(program, i, computed);
    }
    hide CollectedTo, RunTo, Heard, Meant, StraightLine, Registers, Unregisters, ReadsRight, Prepends, ReadsPrepend;
  }

  /** A missed call makes the chain shorter for good. */
  lemma {:induction false} MissedShortens(program: Block, n: nat, computed: Computed)
    requires n <= |program| && StraightLine(program)
    requires forall i :: 0 <= i < |program| ==> !Unregisters(program, i) && ReadsRight(program, i, computed)
    ensures |CollectedTo(program, n).chain| <= |RunTo(program, n, computed).queue|
    ensures (exists i :: 0 <= i < n && Missed(program, i, computed))
            ==> |CollectedTo(program, n).chain| < |RunTo(program, n, computed).queue|
  {
    hide StraightLine, Unregisters, ReadsRight, Missed, CollectedTo, RunTo;
    StartsEmpty(program, computed);
    if n > 0 {
      MissedShortens(program, n - 1, computed);
      assert !Unregisters(program, n - 1);
      MissedStep(program, n - 1, computed);
    }
  }

  lemma StartsEmpty(program: Block, computed: Computed)
    ensures CollectedTo(program, 0).chain == [] && RunTo(program, 0, computed).queue == []
  {
  }

  /** Without unregister calls, and with names and flags read right, the final chain is the
      final queue exactly when no loader is missed. */
  lemma MissedExact(program: Block, computed: Computed)
    requires StraightLine(program)
    requires forall i :: 0 <= i < |program| ==> !Unregisters(program, i) && ReadsRight(program, i, computed)
    ensures Collected(program).chain == QueueOf(program, computed)
            <==> forall i :: 0 <= i < |program| ==> !Missed(program, i, computed)
  {
    MissedShortens(program, |program|, computed);
    if forall i :: 0 <= i < |program| ==> !Missed(program, i, computed) {
      forall i | 0 <= i < |program| ensures TakenRight(program, i, computed) {
        assert !Unregisters(program, i) && ReadsRight(program, i, computed) && !Missed(program, i, computed);
        if Registers(program, i) {
          HeardOrMissed(program, i, computed);
        }
      }
      ChainIsQueue(program, computed);
    }
  }

  // ----- loaders that reach a call other than as a closure -----

  predicate HandsOver(program: Block, i: nat, x: string)
    requires i < |program|
  {
    Registers(program, i) && program[i].expr.args[0] == Variable(x)
  }

  /** Any loader but a closure is missed if it reaches the call through a variable. */
  lemma AssignedLoaderIsMissed(program: Block, i: nat, x: string, computed: Computed)
    requires i < |program| && HandsOver(program, i, x) && LastAssign(program, i, x, {}).Some?
    requires var k := LastAssign(program, i, x, {}).value;
             !program[k].value.Closure? && Provided(program, k, program[k].value, {}, computed).Some?
    ensures Missed(program, i, computed)
  {
    VariableHeardExact(program, i, x, computed);
    HeardIsMeant(program, i, computed);
    hide CalleeAt, Provided, LastAssign, Heard, Meant;
  }

  /** `$f = function ($p) {}; ... $g = $f; ... spl_autoload_register($g);` */
  lemma CopiedClosureIsMissed(program: Block, i: nat, f: string, g: string, computed: Computed)
    requires i < |program| && HandsOver(program, i, g) && LastAssign(program, i, g, {}).Some?
    requires var k := LastAssign(program, i, g, {}).value;
             program[k].value == Variable(f) && BoundRule(program, k, f).Some?
    ensures Missed(program, i, computed)
  {
    var k := LastAssign(program, i, g, {}).value;
    VariableProvides(program, k, f, {}, computed);
    var m := LastAssign(program, k, f, {}).value;
    ClosureProvides(program, m, program[m].value, {}, computed);
    hide CalleeAt, Provided, LastAssign, ClosureRule, Missed;
    AssignedLoaderIsMissed(program, i, g, computed);
  }

  // ----- programs with few calls -----

  function Single(rule: Option<Rule>): seq<Rule> {
    match rule
    case None => []
    case Some(r) => [r]
  }

  lemma {:induction false} SilentBetween(program: Block, i: nat, j: nat, computed: Computed)
    requires i <= j <= |program| && StraightLine(program) && forall k :: i <= k < j ==> !IsCall(program[k])
    ensures CollectedTo(program, j).chain == CollectedTo(program, i).chain
    ensures RunTo(program, j, computed).queue == RunTo(program, i, computed).queue
    decreases j
  {
    hide CollectedTo, RunTo, StraightLine;
    if i < j {
      SilentBetween(program, i, j - 1, computed);
      ChainStep(program, j - 1);
      QueueStep(program, j - 1, computed);
    }
  }

  lemma PlainRegistration(program: Block, i: nat, computed: Computed)
    requires i < |program| && StraightLine(program) && Registers(program, i) && |program[i].expr.args| == 1
    ensures CollectedTo(program, i + 1).chain == CollectedTo(program, i).chain + Single(Heard(program, i))
    ensures RunTo(program, i + 1, computed).queue
            == RunTo(program, i, computed).queue + Single(Meant(program, i, computed))
  {
    ChainStep(program, i);
    QueueStep(program, i, computed);
    hide CollectedTo, RunTo, Heard, Meant, StraightLine, CalleeAt;
  }

  /** If only the last statement is a call, and registers, chain and queue are what is heard
      and what is meant. */
  lemma OnlyCall(program: Block, i: nat, computed: Computed)
    requires |program| == i + 1 && StraightLine(program) && Registers(program, i) && |program[i].expr.args| == 1
    requires forall k :: 0 <= k < i ==> !IsCall(program[k])
    ensures Collected(program).chain == Single(Heard(program, i))
    ensures QueueOf(program, computed) == Single(Meant(program, i, computed))
  {
    StartsEmpty(program, computed);
    AtEnd(program, computed);
    hide CollectedTo, RunTo, Heard, Meant, StraightLine, Registers, Collected;
    SilentBetween(program, 0, i, computed);
    PlainRegistration(program, i, computed);
  }

  lemma AtEnd(program: Block, computed: Computed)
    ensures Collected(program).chain == CollectedTo(program, |program|).chain
    ensures QueueOf(program, computed) == RunTo(program, |program|, computed).queue
  {
  }

  lemma NothingBeside(rules: seq<Rule>)
    ensures [] + rules == rules == rules + []
  {
  }

  /** The i-th and the last statement are the only calls, and register. */
  predicate RegistersTwice(program: Block, i: nat, j: nat) {
    && i < j && |program| == j + 1 && StraightLine(program)
    && Registers(program, i) && |program[i].expr.args| == 1 && Registers(program, j) && |program[j].expr.args| == 1
    && forall k :: 0 <= k < j && k != i ==> !IsCall(program[k])
  }

  /** The same for two calls. */
  lemma TwoCalls(program: Block, i: nat, j: nat, computed: Computed)
    requires RegistersTwice(program, i, j)
    ensures Collected(program).chain == Single(Heard(program, i)) + Single(Heard(program, j))
    ensures QueueOf(program, computed) == Single(Meant(program, i, computed)) + Single(Meant(program, j, computed))
  {
    StartsEmpty(program, computed);
    AtEnd(program, computed);
    hide CollectedTo, RunTo, Heard, Meant, StraightLine, CalleeAt, Collected, QueueOf, Single;
    SilentBetween(program, 0, i, computed);
    PlainRegistration(program, i, computed);
    NothingBeside(Single(Heard(program, i)));
    NothingBeside(Single(Meant(program, i, computed)));
    SilentBetween(program, i + 1, j, computed);
    PlainRegistration(program, j, computed);
  }
}
