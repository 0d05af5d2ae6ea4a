/** The jump scans are exact: where nothing is dead, a positive answer is a run. */
module TerminationJumps {
  import opened Prelude
  import opened Ast
  import opened Names
  import opened Termination
  import opened BigStep
  import opened Outcomes
  import opened TerminationSound
  import opened TerminationPrecise

  // ----- statements without dead code -----

  /** Every statement but the last can complete. */
  predicate LiveBlock(stmts: Block)
    decreases stmts
  {
    stmts == [] || (Live(stmts[0]) && LiveBlock(stmts[1..]) && (|stmts| > 1 ==> Normal in StmtOutcomes(stmts[0])))
  }

  predicate LiveOptBlock(block: OptBlock)
    decreases block
  {
    block.Body? ==> LiveBlock(block.stmts)
  }

  predicate LiveClauses(clauses: seq<Clause>)
    decreases clauses
  {
    clauses == [] || (LiveBlock(clauses[0].body) && LiveClauses(clauses[1..]))
  }

  /** Every branch and every part can be reached, and a `finally` can complete. */
  predicate Live(s: Stmt)
    decreases s
  {
    match s
    case Synthetic(body) => LiveBlock(body)
    case NamespaceBlock(_, body) => LiveBlock(body)
    case IncludeOnceGuard(body) => LiveBlock(body)
    case If(cond, thenBody, elseifs, elseBody) =>
      && Undecided(cond) && LiveBlock(thenBody) && LiveClauses(elseifs) && LiveOptBlock(elseBody)
      && (forall i :: 0 <= i < |elseifs| ==> Undecided(Guard(elseifs[i])))
    case IfDef(thenBody, elseBody) => LiveBlock(thenBody) && LiveOptBlock(elseBody)
    case While(cond, body) => Evaluates(cond, Value(true)) && LiveBlock(body)
    case DoWhile(body, _) => LiveBlock(body)
    case For(init, test, update, body) =>
      && (init.Some? ==> Live(init.value) && Normal in StmtOutcomes(init.value))
      && TestPasses(test) && LiveBlock(body)
      && (update.Some? ==> Live(update.value) && MayResume(BlockOutcomes(body)))
    case Foreach(subject, body) => Completes(subject) && LiveBlock(body)
    case Switch(_, cases, default) => LiveClauses(cases) && LiveOptBlock(default)
    case Try(tryBody, catches, finallyBody) =>
      && LiveBlock(tryBody) && LiveClauses(catches) && LiveOptBlock(finallyBody)
      && (catches != [] ==> Thrown in BlockOutcomes(tryBody))
      && (finallyBody.Body? ==> Normal in BlockOutcomes(finallyBody.stmts) && GuardedOutcomes(s) - {Exited} != {})
    case _ => true
  }

  // ----- what a scan sees can happen -----

  ghost predicate SomeJumps(outcomes: set<Outcome>, depth: Level, continues: bool) {
    exists o :: o in outcomes && Jumps(o, depth, continues)
  }

  lemma JumpsWithin(some: set<Outcome>, all: set<Outcome>, depth: Level, continues: bool)
    requires SomeJumps(some, depth, continues) && (forall o :: o in some && o != Normal ==> o in all)
    ensures SomeJumps(all, depth, continues)
  {
    var o :| o in some && Jumps(o, depth, continues);
    assert o in all;
  }

  lemma {:induction false} BlockJumps(stmts: Block, depth: Level, continues: bool)
    requires LiveBlock(stmts) && AnyMayJump(stmts, depth, continues)
    ensures SomeJumps(BlockOutcomes(stmts), depth, continues)
    decreases stmts, 0
  {
    if MayJump(stmts[0], depth, continues) {
      StmtJumps(stmts[0], depth, continues);
      JumpsWithin(StmtOutcomes(stmts[0]), BlockOutcomes(stmts), depth, continues);
    } else {
      BlockJumps(stmts[1..], depth, continues);
      JumpsWithin(BlockOutcomes(stmts[1..]), BlockOutcomes(stmts), depth, continues);
    }
  }

  lemma {:induction false} ClauseJumps(clauses: seq<Clause>, depth: Level, continues: bool) returns (i: nat)
    requires LiveClauses(clauses) && AnyClauseMayJump(clauses, depth, continues)
    ensures i < |clauses| && SomeJumps(BlockOutcomes(clauses[i].body), depth, continues)
    decreases clauses, 0
  {
    if AnyMayJump(clauses[0].body, depth, continues) {
      BlockJumps(clauses[0].body, depth, continues);
      i := 0;
    } else {
      var k := ClauseJumps(clauses[1..], depth, continues);
      i := k + 1;
    }
  }

  lemma IfJumps(s: Stmt, depth: Level, continues: bool)
    requires s.If? && Live(s) && MayJump(s, depth, continues)
    ensures SomeJumps(StmtOutcomes(s), depth, continues)
    decreases s, 0
  {
    ElseifsReach(s, 0, 0);
    if AnyMayJump(s.thenBody, depth, continues) {
      BlockJumps(s.thenBody, depth, continues);
      JumpsWithin(BlockOutcomes(s.thenBody), StmtOutcomes(s), depth, continues);
    } else if AnyClauseMayJump(s.elseifs, depth, continues) {
      var i := ClauseJumps(s.elseifs, depth, continues);
      ElseifsReach(s, 0, i);
      JumpsWithin(BlockOutcomes(s.elseifs[i].body), StmtOutcomes(s), depth, continues);
    } else {
      BlockJumps(s.elseBody.stmts, depth, continues);
      JumpsWithin(BlockOutcomes(s.elseBody.stmts), StmtOutcomes(s), depth, continues);
    }
  }

  lemma IfDefJumps(s: Stmt, depth: Level, continues: bool)
    requires s.IfDef? && Live(s) && MayJump(s, depth, continues)
    ensures SomeJumps(StmtOutcomes(s), depth, continues)
    decreases s, 0
  {
    if AnyMayJump(s.thenBody, depth, continues) {
      BlockJumps(s.thenBody, depth, continues);
      JumpsWithin(BlockOutcomes(s.thenBody), StmtOutcomes(s), depth, continues);
    } else {
      BlockJumps(s.elseBody.stmts, depth, continues);
      JumpsWithin(OptBlockOutcomes(s.elseBody), StmtOutcomes(s), depth, continues);
    }
  }

  /** A jump out of the body of a loop leaves one level less. */
  lemma BodyJumps(s: Stmt, depth: Level, continues: bool)
    requires IsLoop(s) && SomeJumps(BlockOutcomes(s.body), depth + 1, continues)
    ensures SomeJumps(PassOutcomes(s), depth, continues)
  {
    var o :| o in BlockOutcomes(s.body) && Jumps(o, depth + 1, continues);
    assert Resume(o) == Leave(if o.Brk? then Brk(o.n - 1) else Cont(o.n - 1));
    assert Resume(o).outcome in Leaving(BlockOutcomes(s.body));
    assert Resume(o).outcome in PassOutcomes(s);
  }

  lemma LoopJumps(s: Stmt, depth: Level, continues: bool)
    requires (s.While? || s.DoWhile? || s.Foreach?) && Live(s) && MayJump(s, depth, continues)
    ensures SomeJumps(StmtOutcomes(s), depth, continues)
    decreases s, 0
  {
    BlockJumps(s.body, depth + 1, continues);
    BodyJumps(s, depth, continues);
    assert !s.DoWhile? ==> TestPasses(LoopTest(s));
    assert PassOutcomes(s) <= (if s.DoWhile? then PassOutcomes(s) else TestOutcomes(s));
    JumpsWithin(PassOutcomes(s), StmtOutcomes(s), depth, continues);
  }

  lemma ForJumps(s: Stmt, depth: Level, continues: bool)
    requires s.For? && Live(s) && MayJump(s, depth, continues)
    ensures SomeJumps(StmtOutcomes(s), depth, continues)
    decreases s, 0
  {
    if s.init.Some? && MayJump(s.init.value, depth, continues) {
      StmtJumps(s.init.value, depth, continues);
      JumpsWithin(StmtOutcomes(s.init.value), StmtOutcomes(s), depth, continues);
    } else {
      if s.update.Some? && MayJump(s.update.value, depth, continues) {
        StmtJumps(s.update.value, depth, continues);
        JumpsWithin(StmtOutcomes(s.update.value), PassOutcomes(s), depth, continues);
      } else {
        BlockJumps(s.body, depth + 1, continues);
        BodyJumps(s, depth, continues);
      }
      assert TestPasses(LoopTest(s)) && PassOutcomes(s) <= TestOutcomes(s);
      JumpsWithin(TestOutcomes(s), StmtOutcomes(s), depth, continues);
    }
  }

  /** A jump out of an arm leaves one level less. */
  lemma ArmJumps(s: Stmt, body: Block, depth: Level, continues: bool)
    requires s.Switch? && SomeJumps(BlockOutcomes(body), depth + 1, continues)
    requires BlockOutcomes(body) - {Normal} <= EntryOutcomes(s, 0)
    ensures SomeJumps(StmtOutcomes(s), depth, continues)
  {
    var o :| o in BlockOutcomes(body) && Jumps(o, depth + 1, continues);
    assert o in EntryOutcomes(s, 0);
    assert LeaveSwitch(o) == if o.Brk? then Brk(o.n - 1) else Cont(o.n - 1);
    assert LeaveSwitch(o) in StmtOutcomes(s);
  }

  lemma SwitchJumps(s: Stmt, depth: Level, continues: bool)
    requires s.Switch? && Live(s) && MayJump(s, depth, continues)
    ensures SomeJumps(StmtOutcomes(s), depth, continues)
    decreases s, 0
  {
    if AnyClauseMayJump(s.cases, depth + 1, continues) {
      var i := ClauseJumps(s.cases, depth + 1, continues);
      EntriesReach(s, 0, i);
      ArmJumps(s, s.cases[i].body, depth, continues);
    } else {
      BlockJumps(s.default.stmts, depth + 1, continues);
      EntriesReach(s, 0, 0);
      ArmJumps(s, s.default.stmts, depth, continues);
    }
  }

  lemma TryJumps(s: Stmt, depth: Level, continues: bool)
    requires s.Try? && Live(s) && MayJump(s, depth, continues)
    ensures SomeJumps(StmtOutcomes(s), depth, continues)
    decreases s, 0
  {
    var guarded := GuardedOutcomes(s);
    if AnyMayJump(s.tryBody, depth, continues) {
      BlockJumps(s.tryBody, depth, continues);
      JumpsWithin(BlockOutcomes(s.tryBody), guarded, depth, continues);
      JumpsWithin(guarded, StmtOutcomes(s), depth, continues);
    } else if AnyClauseMayJump(s.catches, depth, continues) {
      var i := ClauseJumps(s.catches, depth, continues);
      CatchesReach(s.catches, i);
      JumpsWithin(BlockOutcomes(s.catches[i].body), guarded, depth, continues);
      JumpsWithin(guarded, StmtOutcomes(s), depth, continues);
    } else {
      BlockJumps(s.finallyBody.stmts, depth, continues);
      JumpsWithin(BlockOutcomes(s.finallyBody.stmts), StmtOutcomes(s), depth, continues);
    }
  }

  /** Where nothing is dead, a jump that the scan sees ends some run. */
  lemma {:induction false} StmtJumps(s: Stmt, depth: Level, continues: bool)
    requires Live(s) && MayJump(s, depth, continues)
    ensures SomeJumps(StmtOutcomes(s), depth, continues)
    decreases s, 2
  {
    match s
    case Break(n) => assert Brk(n) in StmtOutcomes(s);
    case Continue(n) => assert Cont(n) in StmtOutcomes(s);
    case Synthetic(body) => BlockJumps(body, depth, continues);
    case NamespaceBlock(_, body) => BlockJumps(body, depth, continues);
    case IncludeOnceGuard(body) =>
      BlockJumps(body, depth, continues);
      JumpsWithin(BlockOutcomes(body), StmtOutcomes(s), depth, continues);
    case If(_, _, _, _) => IfJumps(s, depth, continues);
    case IfDef(_, _) => IfDefJumps(s, depth, continues);
    case While(_, _) => LoopJumps(s, depth, continues);
    case DoWhile(_, _) => LoopJumps(s, depth, continues);
    case Foreach(_, _) => LoopJumps(s, depth, continues);
    case For(_, _, _, _) => ForJumps(s, depth, continues);
    case Switch(_, _, _) => SwitchJumps(s, depth, continues);
    case Try(_, _, _) => TryJumps(s, depth, continues);
  }

  // ----- exactly -----

  /** Where nothing is dead, either scan answers at every depth whether some run jumps that far. */
  lemma ScansAreExact(s: Stmt, depth: Level)
    requires Live(s)
    ensures StmtMayBreakCurrentLoop(s, depth) <==> exists o :: Runs(s, o) && o.Brk? && o.n >= depth
    ensures StmtMayLeaveCurrentSwitch(s, depth) <==> exists o :: Runs(s, o) && (o.Brk? || o.Cont?) && o.n >= depth
  {
    forall o ensures Runs(s, o) <==> o in StmtOutcomes(s) {
      OutcomesAreExact(s, o);
    }
    ScanExact(s, depth, false);
    ScanExact(s, depth, true);
    hide StmtOutcomes, Runs, MayJump, Live;
  }

  lemma ScanExact(s: Stmt, depth: Level, continues: bool)
    requires Live(s)
    ensures MayJump(s, depth, continues) <==> SomeJumps(StmtOutcomes(s), depth, continues)
  {
    if MayJump(s, depth, continues) {
      StmtJumps(s, depth, continues);
    } else {
      StmtScan(s, depth, continues);
    }
  }

  /** A break that the scan sees in a live body can be reached. */
  lemma LiveBreakIsReachable(body: Block)
    requires LiveBlock(body)
    ensures BreakReachable(body)
  {
    if BlockMayBreakCurrentLoop(body) {
      BlockJumps(body, 1, false);
      var o :| o in BlockOutcomes(body) && Jumps(o, 1, false);
    }
  }

  /** So can a jump before every exit of an arm. */
  lemma {:induction false} LiveJumpIsReachable(body: Block)
    requires LiveBlock(body)
    ensures JumpReachable(body)
    decreases body
  {
    if LeavesSwitchBeforeExit(body) {
      if StmtMayLeaveCurrentSwitch(body[0], 1) {
        StmtJumps(body[0], 1, true);
        var o :| o in StmtOutcomes(body[0]) && Jumps(o, 1, true);
        assert o in BlockOutcomes(body);
      } else {
        LiveJumpIsReachable(body[1..]);
        var o :| o in BlockOutcomes(body[1..]) && (o.Brk? || o.Cont?);
        assert o in BlockOutcomes(body);
      }
    }
  }

  /** What ends an infinite loop leaves its body. */
  lemma InfiniteLoopOutcomes(cond: Expr, body: Block)
    requires ExprIsTruthyLiteral(cond)
    ensures forall o :: Runs(While(cond, body), o) <==> o in Leaving(BlockOutcomes(body))
  {
    var s := While(cond, body);
    forall o ensures Runs(s, o) <==> o in StmtOutcomes(s) {
      OutcomesAreExact(s, o);
    }
    assert LoopTest(s) == Some(cond) && TestPasses(LoopTest(s)) && !TestFails(LoopTest(s));
    assert AbruptTests(LoopTest(s)) == {};
    assert PassOutcomes(s) == Leaving(BlockOutcomes(body));
    assert StmtOutcomes(s) == Leaving(BlockOutcomes(body));
  }

  /** An infinite loop with a live body is taken for an exit exactly if no run leaves it by a
      break. */
  lemma InfiniteLoopExact(cond: Expr, body: Block)
    requires ExprIsTruthyLiteral(cond) && LiveBlock(body)
    ensures StmtGuaranteesFunctionExit(While(cond, body))
            <==> forall o :: Runs(While(cond, body), o) ==> o != Normal && !o.Brk?
  {
    var s := While(cond, body);
    InfiniteLoopOutcomes(cond, body);
    assert StmtGuaranteesFunctionExit(s) <==> !BlockMayBreakCurrentLoop(body);
    hide StmtGuaranteesFunctionExit, StmtOutcomes, BlockOutcomes, Runs, LiveBlock;
    if BlockMayBreakCurrentLoop(body) {
      LiveBreakIsReachable(body);
      var o :| o in BlockOutcomes(body) && o.Brk?;
      var left := if o.n == 1 then Normal else Brk(o.n - 1);
      assert Resume(o) == Leave(left) && left in Leaving(BlockOutcomes(body));
      assert Runs(s, left);
    } else {
      BlockScan(body, 1, false);
    }
  }

  // ----- exits -----

  /** Calls of `exit` and `die`, in any letter case, never complete and are taken for exits; all
      other calls may complete and are not. */
  lemma ExitCallsExact(name: Name, args: seq<Expr>)
    ensures ExprGuaranteesFunctionExit(FunctionCall(name, args))
            <==> EqualIgnoringCase(name.text, "exit") || EqualIgnoringCase(name.text, "die")
    ensures Completes(FunctionCall(name, args)) <==> !ExprGuaranteesFunctionExit(FunctionCall(name, args))
  {
    IgnoringCaseIsLowercase(name.text, "exit");
    IgnoringCaseIsLowercase(name.text, "die");
    LowercaseText("exit");
    LowercaseText("die");
    hide Lowercase, EqualIgnoringCase;
  }

  // ----- literals and merging -----

  /** A literal condition is taken for true exactly if it can only be true; nothing else is. */
  lemma TruthyExact(e: Expr)
    ensures ExprIsTruthyLiteral(e)
            <==> (e.BoolLiteral? || e.IntLiteral? || e.FloatLiteral? || e.StringLiteral?) && Evaluates(e, Value(true))
  {
  }

  /** A float is zero exactly if all its bits but the sign are. */
  lemma FloatZeroExact(bits: U64)
    ensures FloatIsZero(bits) <==> bits % 0x8000_0000_0000_0000 == 0
  {
  }

  /** Branches that agree merge to what they agree on; one that falls through prevails; all
      others are mixed. */
  lemma MergeExact(effects: seq<TerminalEffect>, e: TerminalEffect)
    ensures e == Breaks || e == ExitsCurrentBlock ==>
              (MergedEffect(effects) == e <==> effects != [] && forall x :: x in effects ==> x == e)
    ensures MergedEffect(effects) == FallsThrough <==> effects == [] || FallsThrough in effects
  {
    if effects != [] {
      assert effects[0] in effects;
    }
  }

  // ----- switches -----

  /** The statement that ends an arm does not jump out of the switch itself. */
  predicate CleanExit(stmts: Block)
    decreases stmts
  {
    stmts == []
    || (if StmtGuaranteesFunctionExit(stmts[0]) then !StmtMayLeaveCurrentSwitch(stmts[0], 1) else CleanExit(stmts[1..]))
  }

  predicate CleanExits(clauses: seq<Clause>) {
    forall i :: 0 <= i < |clauses| ==> CleanExit(clauses[i].body)
  }

  lemma {:induction false} CleanIsJumpFree(stmts: Block)
    requires CleanExit(stmts)
    ensures JumpFreeToExit(stmts) <==> !LeavesSwitchBeforeExit(stmts)
  {
    if stmts != [] && !StmtGuaranteesFunctionExit(stmts[0]) {
      CleanIsJumpFree(stmts[1..]);
    }
  }

  lemma {:induction false} CleanArmsAreJumpFree(clauses: seq<Clause>)
    requires CleanExits(clauses) && !AnyClauseLeavesSwitchBeforeExit(clauses)
    ensures ArmsJumpFreeToExit(clauses)
  {
    if clauses != [] {
      CleanIsJumpFree(clauses[0].body);
      assert forall i :: 0 <= i < |clauses| - 1 ==> clauses[1..][i] == clauses[i + 1];
      CleanArmsAreJumpFree(clauses[1..]);
    }
  }

  /** A switch that is taken for a function exit never completes, on no condition but that its
      arms are in order and their last statements do not jump. */
  lemma SwitchExitIsSound(s: Stmt)
    requires s.Switch? && OrderedClauses(s.cases) && OrderedOptBlock(s.default)
    requires CleanExits(s.cases) && (s.default.Body? ==> CleanExit(s.default.stmts))
    requires StmtGuaranteesFunctionExit(s)
    ensures !Runs(s, Normal)
  {
    CleanArmsAreJumpFree(s.cases);
    CleanIsJumpFree(s.default.stmts);
    AcceptedStatementNeverCompletes(s);
  }
}
