/** A computable account of what a statement may do, exact for the relation
    `StmtRuns`: an outcome is computed precisely when some run has it. */
module Outcomes {
  import opened Ast
  import opened BigStep

  /** First `head`, then, if it can complete, `tail`. */
  function Then(head: set<Outcome>, tail: set<Outcome>): set<Outcome> {
    if Normal in head then (head - {Normal}) + tail else head
  }

  function BlockOutcomes(stmts: Block): set<Outcome>
    decreases stmts, 0
  {
    if stmts == [] then {Normal}
    else Then(StmtOutcomes(stmts[0]), BlockOutcomes(stmts[1..]))
  }

  function OptBlockOutcomes(block: OptBlock): set<Outcome>
    decreases block, 1
  {
    if block.NoBody? then {Normal} else BlockOutcomes(block.stmts)
  }

  function Branch(cond: Expr, onTrue: set<Outcome>, onFalse: set<Outcome>): set<Outcome> {
    AbruptEvaluations(cond)
    + (if Evaluates(cond, Value(true)) then onTrue else {})
    + (if Evaluates(cond, Value(false)) then onFalse else {})
  }

  function ElseifOutcomes(s: Stmt, i: nat): set<Outcome>
    requires s.If? && i <= |s.elseifs|
    decreases s, 0, |s.elseifs| - i
  {
    if i == |s.elseifs| then OptBlockOutcomes(s.elseBody)
    else Branch(Guard(s.elseifs[i]), BlockOutcomes(s.elseifs[i].body), ElseifOutcomes(s, i + 1))
  }

  function ArmOutcomes(s: Stmt, i: nat): set<Outcome>
    requires s.Switch? && i <= |s.cases|
    decreases s, 0, |s.cases| - i
  {
    if i == |s.cases| then OptBlockOutcomes(s.default)
    else Then(BlockOutcomes(s.cases[i].body), ArmOutcomes(s, i + 1))
  }

  /** Entering a switch at any arm. */
  function EntryOutcomes(s: Stmt, i: nat): set<Outcome>
    requires s.Switch? && i <= |s.cases|
    decreases s, 1, |s.cases| - i
  {
    ArmOutcomes(s, i) + (if i == |s.cases| then {} else EntryOutcomes(s, i + 1))
  }

  function CatchOutcomes(catches: seq<Clause>): set<Outcome>
    decreases catches, 0
  {
    if catches == [] then {} else BlockOutcomes(catches[0].body) + CatchOutcomes(catches[1..])
  }

  function GuardedOutcomes(s: Stmt): set<Outcome>
    requires s.Try?
    decreases s, 0
  {
    BlockOutcomes(s.tryBody) + (if Thrown in BlockOutcomes(s.tryBody) then CatchOutcomes(s.catches) else {})
  }

  function Finally(guarded: set<Outcome>, last: set<Outcome>): set<Outcome> {
    guarded * {Exited}
    + (if guarded - {Exited} == {} then {} else last - {Normal})
    + (if Normal in last then guarded - {Exited} else {})
  }

  function Leaving(body: set<Outcome>): set<Outcome> {
    set b | b in body && Resume(b).Leave? :: Resume(b).outcome
  }

  predicate MayResume(body: set<Outcome>) {
    exists b :: b in body && Resume(b) == Again
  }

  /** At the test: one pass shows everything, since nothing is remembered between passes. */
  function TestOutcomes(s: Stmt): set<Outcome>
    requires IsLoop(s)
    decreases s, 0, 1
  {
    AbruptTests(LoopTest(s))
    + (if TestFails(LoopTest(s)) then {Normal} else {})
    + (if TestPasses(LoopTest(s)) then PassOutcomes(s) else {})
  }

  /** One pass through the body and the update. */
  function PassOutcomes(s: Stmt): set<Outcome>
    requires IsLoop(s)
    decreases s, 0, 0
  {
    var body := BlockOutcomes(s.body);
    Leaving(body)
    + (if MayResume(body) && s.For? && s.update.Some? then StmtOutcomes(s.update.value) - {Normal} else {})
  }

  function StmtOutcomes(s: Stmt): set<Outcome>
    decreases s, 2
  {
    match s
    case Return(result) =>
      if result.None? then {Returned}
      else AbruptEvaluations(result.value) + (if Completes(result.value) then {Returned} else {})
    case Throw(e) => AbruptEvaluations(e) + (if Completes(e) then {Thrown} else {})
    case Break(levels) => {Brk(levels)}
    case Continue(levels) => {Cont(levels)}
    case ExprStmt(e) => AbruptEvaluations(e) + (if Completes(e) then {Normal} else {})
    case Synthetic(body) => BlockOutcomes(body)
    case NamespaceBlock(_, body) => BlockOutcomes(body)
    case IncludeOnceGuard(body) => {Normal} + BlockOutcomes(body)
    case If(cond, thenBody, _, _) => Branch(cond, BlockOutcomes(thenBody), ElseifOutcomes(s, 0))
    case IfDef(thenBody, elseBody) => BlockOutcomes(thenBody) + OptBlockOutcomes(elseBody)
    case While(_, _) => TestOutcomes(s)
    case DoWhile(body, cond) =>
      PassOutcomes(s) + (if MayResume(BlockOutcomes(body)) then TestOutcomes(s) else {})
    case For(init, _, _, _) =>
      if init.Some? then Then(StmtOutcomes(init.value), TestOutcomes(s)) else TestOutcomes(s)
    case Foreach(subject, _) =>
      AbruptEvaluations(subject) + (if Completes(subject) then TestOutcomes(s) else {})
    case Switch(_, _, default) =>
      {Thrown, Exited} + (if default.NoBody? then {Normal} else {})
      + (set b | b in EntryOutcomes(s, 0) :: LeaveSwitch(b))
    case Try(_, _, finallyBody) =>
      if finallyBody.NoBody? then GuardedOutcomes(s)
      else Finally(GuardedOutcomes(s), BlockOutcomes(finallyBody.stmts))
    case _ => {Normal, Thrown, Exited}
  }

  // ----- exactness -----

  // With no pass allowed a loop has fewer outcomes; from one pass on it has all of them.

  ghost predicate Exactly(runs: bool, passes: nat, o: Outcome, outcomes: set<Outcome>) {
    (runs ==> o in outcomes) && (passes > 0 && o in outcomes ==> runs)
  }

  lemma {:induction false} BlockExact(stmts: Block, passes: nat, o: Outcome)
    ensures Exactly(BlockRuns(stmts, passes, o), passes, o, BlockOutcomes(stmts))
    decreases stmts, 0
  {
    if stmts != [] {
      StmtExact(stmts[0], passes, o);
      StmtExact(stmts[0], passes, Normal);
      BlockExact(stmts[1..], passes, o);
    }
  }

  lemma OptBlockExact(block: OptBlock, passes: nat, o: Outcome)
    ensures Exactly(OptBlockRuns(block, passes, o), passes, o, OptBlockOutcomes(block))
    decreases block, 1
  {
    if block.Body? {
      BlockExact(block.stmts, passes, o);
    }
  }

  lemma {:induction false} ElseifsExact(s: Stmt, i: nat, passes: nat, o: Outcome)
    requires s.If? && i <= |s.elseifs|
    ensures Exactly(ElseifsRun(s, i, passes, o), passes, o, ElseifOutcomes(s, i))
    decreases s, 0, |s.elseifs| - i
  {
    if i == |s.elseifs| {
      OptBlockExact(s.elseBody, passes, o);
    } else {
      BlockExact(s.elseifs[i].body, passes, o);
      ElseifsExact(s, i + 1, passes, o);
    }
  }

  lemma {:induction false} ArmsExact(s: Stmt, i: nat, passes: nat, o: Outcome)
    requires s.Switch? && i <= |s.cases|
    ensures Exactly(ArmsRun(s, i, passes, o), passes, o, ArmOutcomes(s, i))
    decreases s, 0, |s.cases| - i
  {
    if i == |s.cases| {
      OptBlockExact(s.default, passes, o);
    } else {
      BlockExact(s.cases[i].body, passes, o);
      BlockExact(s.cases[i].body, passes, Normal);
      ArmsExact(s, i + 1, passes, o);
    }
  }

  lemma {:induction false} EntryExact(s: Stmt, i: nat, passes: nat, o: Outcome)
    requires s.Switch? && i <= |s.cases|
    ensures Exactly(EntryRuns(s, i, passes, o), passes, o, EntryOutcomes(s, i))
    decreases s, 1, |s.cases| - i
  {
    ArmsExact(s, i, passes, o);
    if i < |s.cases| {
      EntryExact(s, i + 1, passes, o);
    }
  }

  lemma {:induction false} CatchIsSomeBody(catches: seq<Clause>, o: Outcome)
    ensures o in CatchOutcomes(catches) <==> exists c :: c in catches && o in BlockOutcomes(c.body)
  {
    if catches != [] {
      CatchIsSomeBody(catches[1..], o);
      assert catches == [catches[0]] + catches[1..];
    }
  }

  lemma SwitchExact(s: Stmt, passes: nat, o: Outcome)
    requires s.Switch?
    ensures Exactly(StmtRuns(s, passes, o), passes, o, StmtOutcomes(s))
    decreases s, 2
  {
    var direct := {Thrown, Exited} + (if s.default.NoBody? then {Normal} else {});
    if StmtRuns(s, passes, o) && o !in direct {
      var b :| EntryRuns(s, 0, passes, b) && o == LeaveSwitch(b);
      EntryExact(s, 0, passes, b);
    }
    if o in StmtOutcomes(s) && o !in direct {
      var b :| b in EntryOutcomes(s, 0) && o == LeaveSwitch(b);
      EntryExact(s, 0, passes, b);
    }
  }

  lemma GuardedExact(s: Stmt, passes: nat, o: Outcome)
    requires s.Try?
    ensures Exactly(GuardedRuns(s, passes, o), passes, o, GuardedOutcomes(s))
    decreases s, 0
  {
    BlockExact(s.tryBody, passes, o);
    BlockExact(s.tryBody, passes, Thrown);
    forall c | c in s.catches ensures Exactly(BlockRuns(c.body, passes, o), passes, o, BlockOutcomes(c.body)) {
      BlockExact(c.body, passes, o);
    }
    CatchIsSomeBody(s.catches, o);
  }

  lemma FinallyExact(s: Stmt, passes: nat)
    requires s.Try?
    ensures FinallyEntered(s, passes) ==> GuardedOutcomes(s) - {Exited} != {}
    ensures passes > 0 && GuardedOutcomes(s) - {Exited} != {} ==> FinallyEntered(s, passes)
    decreases s, 1
  {
    if FinallyEntered(s, passes) {
      var g :| EntersFinally(g) && GuardedRuns(s, passes, g);
      GuardedExact(s, passes, g);
      assert g in GuardedOutcomes(s) - {Exited};
    }
    if g :| g in GuardedOutcomes(s) - {Exited} {
      GuardedExact(s, passes, g);
      assert EntersFinally(g);
    }
  }

  lemma TryExact(s: Stmt, passes: nat, o: Outcome)
    requires s.Try?
    ensures Exactly(StmtRuns(s, passes, o), passes, o, StmtOutcomes(s))
    decreases s, 2
  {
    GuardedExact(s, passes, o);
    if s.finallyBody.Body? {
      BlockExact(s.finallyBody.stmts, passes, o);
      BlockExact(s.finallyBody.stmts, passes, Normal);
      FinallyExact(s, passes);
    }
  }

  /** The pieces of a loop, exact by induction on the statement. */
  ghost predicate LoopPartsExact(s: Stmt, passes: nat)
    requires IsLoop(s)
  {
    && (forall b :: Exactly(BlockRuns(s.body, passes, b), passes, b, BlockOutcomes(s.body)))
    && (s.For? && s.update.Some? ==>
          forall b :: Exactly(StmtRuns(s.update.value, passes, b), passes, b, StmtOutcomes(s.update.value)))
  }

  /** However often a loop goes round, one pass already shows its outcomes. */
  lemma {:induction false} LoopSound(s: Stmt, n: nat, passes: nat, o: Outcome)
    requires IsLoop(s) && LoopPartsExact(s, passes)
    ensures LoopRuns(s, n, passes, o) ==> o in TestOutcomes(s)
    ensures BodyRuns(s, n, passes, o) ==>
              o in PassOutcomes(s) || (MayResume(BlockOutcomes(s.body)) && o in TestOutcomes(s))
    decreases n
  {
    if n > 0 {
      LoopSound(s, n - 1, passes, o);
    }
    assert LoopRuns(s, n, passes, o) ==> o in TestOutcomes(s);
    if BodyRuns(s, n, passes, o) {
      var b :| BlockRuns(s.body, passes, b) &&
               match Resume(b) case Leave(o') => o == o' case Again => UpdateRuns(s, n, passes, o);
      if Resume(b) == Again {
        assert MayResume(BlockOutcomes(s.body));
        assert LoopRuns(s, n, passes, o)
               || (s.For? && s.update.Some? && o != Normal && StmtRuns(s.update.value, passes, o));
      }
    }
  }

  lemma LoopComplete(s: Stmt, n: nat, passes: nat, o: Outcome)
    requires IsLoop(s) && LoopPartsExact(s, passes) && passes > 0
    ensures o in PassOutcomes(s) ==> BodyRuns(s, n, passes, o)
    ensures n > 0 && o in TestOutcomes(s) ==> LoopRuns(s, n, passes, o)
    ensures n > 0 && s.DoWhile? && MayResume(BlockOutcomes(s.body)) && o in TestOutcomes(s)
            ==> BodyRuns(s, n, passes, o)
  {
    PassRuns(s, n, passes, o);
    if n > 0 {
      PassRuns(s, n - 1, passes, o);
      assert o in TestOutcomes(s) ==> LoopRuns(s, n, passes, o);
      if s.DoWhile? && MayResume(BlockOutcomes(s.body)) && o in TestOutcomes(s) {
        var b :| b in BlockOutcomes(s.body) && Resume(b) == Again;
        assert BlockRuns(s.body, passes, b) && UpdateRuns(s, n, passes, o);
      }
    }
  }

  lemma PassRuns(s: Stmt, n: nat, passes: nat, o: Outcome)
    requires IsLoop(s) && LoopPartsExact(s, passes) && passes > 0
    ensures o in PassOutcomes(s) ==> BodyRuns(s, n, passes, o)
  {
    if o in PassOutcomes(s) {
      if o in Leaving(BlockOutcomes(s.body)) {
        var b :| b in BlockOutcomes(s.body) && Resume(b) == Leave(o);
        assert BlockRuns(s.body, passes, b);
      } else {
        var b :| b in BlockOutcomes(s.body) && Resume(b) == Again;
        assert BlockRuns(s.body, passes, b) && UpdateRuns(s, n, passes, o);
      }
    }
  }

  lemma LoopStmtExact(s: Stmt, passes: nat, o: Outcome)
    requires IsLoop(s)
    ensures Exactly(StmtRuns(s, passes, o), passes, o, StmtOutcomes(s))
    decreases s, 1
  {
    forall b ensures Exactly(BlockRuns(s.body, passes, b), passes, b, BlockOutcomes(s.body)) {
      BlockExact(s.body, passes, b);
    }
    if s.For? && s.update.Some? {
      forall b ensures Exactly(StmtRuns(s.update.value, passes, b), passes, b, StmtOutcomes(s.update.value)) {
        StmtExact(s.update.value, passes, b);
      }
    }
    LoopSound(s, passes, passes, o);
    if passes > 0 {
      LoopComplete(s, passes, passes, o);
    }
    if s.For? && s.init.Some? {
      StmtExact(s.init.value, passes, o);
      StmtExact(s.init.value, passes, Normal);
    }
  }

  lemma {:induction false} StmtExact(s: Stmt, passes: nat, o: Outcome)
    ensures Exactly(StmtRuns(s, passes, o), passes, o, StmtOutcomes(s))
    decreases s, 3
  {
    match s
    case Synthetic(body) => BlockExact(body, passes, o);
    case NamespaceBlock(_, body) => BlockExact(body, passes, o);
    case IncludeOnceGuard(body) => BlockExact(body, passes, o);
    case If(_, thenBody, _, _) => BlockExact(thenBody, passes, o); ElseifsExact(s, 0, passes, o);
    case IfDef(thenBody, elseBody) => BlockExact(thenBody, passes, o); OptBlockExact(elseBody, passes, o);
    case While(_, _) => LoopStmtExact(s, passes, o);
    case DoWhile(_, _) => LoopStmtExact(s, passes, o);
    case For(_, _, _, _) => LoopStmtExact(s, passes, o);
    case Foreach(_, _) => LoopStmtExact(s, passes, o);
    case Switch(_, _, _) => SwitchExact(s, passes, o);
    case Try(_, _, _) => TryExact(s, passes, o);
    case _ =>
  }

  /** An outcome is computed exactly when some finite run ends in it. */
  lemma OutcomesAreExact(s: Stmt, o: Outcome)
    ensures Runs(s, o) <==> o in StmtOutcomes(s)
  {
    forall passes: nat ensures Exactly(StmtRuns(s, passes, o), passes, o, StmtOutcomes(s)) {
      StmtExact(s, passes, o);
    }
    hide StmtRuns, StmtOutcomes;
    assert Exactly(StmtRuns(s, 1, o), 1, o, StmtOutcomes(s));
  }

  lemma BlockOutcomesAreExact(stmts: Block, o: Outcome)
    ensures RunsBlock(stmts, o) <==> o in BlockOutcomes(stmts)
  {
    forall passes: nat ensures Exactly(BlockRuns(stmts, passes, o), passes, o, BlockOutcomes(stmts)) {
      BlockExact(stmts, passes, o);
    }
    hide BlockRuns, BlockOutcomes;
    assert Exactly(BlockRuns(stmts, 1, o), 1, o, BlockOutcomes(stmts));
  }
}
