/** What the verdicts of `Termination` promise about runs. */
module TerminationSound {
  import opened Prelude
  import opened Ast
  import opened Termination
  import opened BigStep
  import opened Outcomes

  // ----- the jump scans, without side condition -----

  /** `o` jumps out of at least `depth` enclosing targets. */
  predicate Jumps(o: Outcome, depth: Level, continues: bool) {
    (o.Brk? && o.n >= depth) || (continues && o.Cont? && o.n >= depth)
  }

  ghost predicate NoneJumps(outcomes: set<Outcome>, depth: Level, continues: bool) {
    forall o :: o in outcomes ==> !Jumps(o, depth, continues)
  }

  lemma {:induction false} BlockScan(stmts: Block, depth: Level, continues: bool)
    requires !AnyMayJump(stmts, depth, continues)
    ensures NoneJumps(BlockOutcomes(stmts), depth, continues)
    decreases stmts, 0
  {
    if stmts != [] {
      StmtScan(stmts[0], depth, continues);
      BlockScan(stmts[1..], depth, continues);
    }
  }

  lemma OptBlockScan(block: OptBlock, depth: Level, continues: bool)
    requires block.Body? ==> !AnyMayJump(block.stmts, depth, continues)
    ensures NoneJumps(OptBlockOutcomes(block), depth, continues)
    decreases block, 1
  {
    if block.Body? {
      BlockScan(block.stmts, depth, continues);
    }
  }

  lemma {:induction false} ClauseFree(clauses: seq<Clause>, depth: Level, continues: bool, i: nat)
    requires !AnyClauseMayJump(clauses, depth, continues) && i < |clauses|
    ensures !AnyMayJump(clauses[i].body, depth, continues)
  {
    if i > 0 {
      ClauseFree(clauses[1..], depth, continues, i - 1);
    }
  }

  lemma {:induction false} ElseifScan(s: Stmt, i: nat, depth: Level, continues: bool)
    requires s.If? && i <= |s.elseifs| && !MayJump(s, depth, continues)
    ensures NoneJumps(ElseifOutcomes(s, i), depth, continues)
    decreases s, 0, |s.elseifs| - i
  {
    if i == |s.elseifs| {
      OptBlockScan(s.elseBody, depth, continues);
    } else {
      ClauseFree(s.elseifs, depth, continues, i);
      BlockScan(s.elseifs[i].body, depth, continues);
      ElseifScan(s, i + 1, depth, continues);
    }
  }

  lemma {:induction false} ArmScan(s: Stmt, i: nat, depth: Level, continues: bool)
    requires s.Switch? && i <= |s.cases| && !MayJump(s, depth, continues)
    ensures NoneJumps(ArmOutcomes(s, i), depth + 1, continues)
    ensures NoneJumps(EntryOutcomes(s, i), depth + 1, continues)
    decreases s, 0, |s.cases| - i
  {
    if i == |s.cases| {
      OptBlockScan(s.default, depth + 1, continues);
    } else {
      ClauseFree(s.cases, depth + 1, continues, i);
      BlockScan(s.cases[i].body, depth + 1, continues);
      ArmScan(s, i + 1, depth, continues);
    }
  }

  lemma {:induction false} CatchScan(catches: seq<Clause>, depth: Level, continues: bool)
    requires !AnyClauseMayJump(catches, depth, continues)
    ensures NoneJumps(CatchOutcomes(catches), depth, continues)
    decreases catches, 0
  {
    if catches != [] {
      BlockScan(catches[0].body, depth, continues);
      CatchScan(catches[1..], depth, continues);
    }
  }

  lemma LoopScan(s: Stmt, depth: Level, continues: bool)
    requires IsLoop(s) && !MayJump(s, depth, continues)
    ensures NoneJumps(PassOutcomes(s), depth, continues)
    ensures NoneJumps(TestOutcomes(s), depth, continues)
    decreases s, 0
  {
    BlockScan(s.body, depth + 1, continues);
    if s.For? && s.update.Some? {
      StmtScan(s.update.value, depth, continues);
    }
  }

  lemma ForScan(s: Stmt, depth: Level, continues: bool)
    requires s.For? && !MayJump(s, depth, continues)
    ensures NoneJumps(StmtOutcomes(s), depth, continues)
    decreases s, 1
  {
    LoopScan(s, depth, continues);
    if s.init.Some? {
      StmtScan(s.init.value, depth, continues);
    }
  }

  lemma SwitchScan(s: Stmt, depth: Level, continues: bool)
    requires s.Switch? && !MayJump(s, depth, continues)
    ensures NoneJumps(StmtOutcomes(s), depth, continues)
    decreases s, 1
  {
    ArmScan(s, 0, depth, continues);
  }

  lemma TryScan(s: Stmt, depth: Level, continues: bool)
    requires s.Try? && !MayJump(s, depth, continues)
    ensures NoneJumps(StmtOutcomes(s), depth, continues)
    decreases s, 1
  {
    BlockScan(s.tryBody, depth, continues);
    CatchScan(s.catches, depth, continues);
    OptBlockScan(s.finallyBody, depth, continues);
  }

  lemma IfScan(s: Stmt, depth: Level, continues: bool)
    requires s.If? && !MayJump(s, depth, continues)
    ensures NoneJumps(StmtOutcomes(s), depth, continues)
    decreases s, 1
  {
    BlockScan(s.thenBody, depth, continues);
    ElseifScan(s, 0, depth, continues);
  }

  lemma IfDefScan(s: Stmt, depth: Level, continues: bool)
    requires s.IfDef? && !MayJump(s, depth, continues)
    ensures NoneJumps(StmtOutcomes(s), depth, continues)
    decreases s, 1
  {
    BlockScan(s.thenBody, depth, continues);
    OptBlockScan(s.elseBody, depth, continues);
  }

  lemma {:induction false} StmtScan(s: Stmt, depth: Level, continues: bool)
    requires !MayJump(s, depth, continues)
    ensures NoneJumps(StmtOutcomes(s), depth, continues)
    decreases s, 2
  {
    match s
    case Synthetic(body) => BlockScan(body, depth, continues);
    case NamespaceBlock(_, body) => BlockScan(body, depth, continues);
    case IncludeOnceGuard(body) => BlockScan(body, depth, continues);
    case If(_, _, _, _) => IfScan(s, depth, continues);
    case IfDef(_, _) => IfDefScan(s, depth, continues);
    case While(_, _) => LoopScan(s, depth, continues);
    case DoWhile(_, _) => LoopScan(s, depth, continues);
    case Foreach(_, _) => LoopScan(s, depth, continues);
    case For(_, _, _, _) => ForScan(s, depth, continues);
    case Switch(_, _, _) => SwitchScan(s, depth, continues);
    case Try(_, _, _) => TryScan(s, depth, continues);
    case _ =>
  }

  /** A negative answer of either scan is right at every depth. */
  lemma ScansAreSound(s: Stmt, depth: Level, o: Outcome)
    requires Runs(s, o)
    ensures !StmtMayLeaveCurrentSwitch(s, depth) ==>
              !(o.Brk? && o.n >= depth) && !(o.Cont? && o.n >= depth)
    ensures !StmtMayBreakCurrentLoop(s, depth) ==> !(o.Brk? && o.n >= depth)
  {
    OutcomesAreExact(s, o);
    if !StmtMayLeaveCurrentSwitch(s, depth) {
      StmtScan(s, depth, true);
    }
    if !StmtMayBreakCurrentLoop(s, depth) {
      StmtScan(s, depth, false);
    }
  }

  // ----- the ordering condition -----

  /** No jump leaves the block before or inside its first exit-guaranteeing
      statement; without such a statement, none leaves it at all. */
  predicate JumpFreeToExit(stmts: Block)
    decreases stmts
  {
    stmts == [] || (!StmtMayLeaveCurrentSwitch(stmts[0], 1)
                    && (StmtGuaranteesFunctionExit(stmts[0]) || JumpFreeToExit(stmts[1..])))
  }

  predicate ArmsJumpFreeToExit(clauses: seq<Clause>)
    decreases clauses
  {
    clauses == [] || (JumpFreeToExit(clauses[0].body) && ArmsJumpFreeToExit(clauses[1..]))
  }

  predicate OrderedBlock(stmts: Block)
    decreases stmts
  {
    stmts == [] || (Ordered(stmts[0]) && OrderedBlock(stmts[1..]))
  }

  predicate OrderedOptBlock(block: OptBlock)
    decreases block
  {
    block.Body? ==> OrderedBlock(block.stmts)
  }

  predicate OrderedClauses(clauses: seq<Clause>)
    decreases clauses
  {
    clauses == [] || (OrderedBlock(clauses[0].body) && OrderedClauses(clauses[1..]))
  }

  /** The ordering holds wherever a verdict rests on it: in the body of a do-while
      accepted for its body alone and in the arms of a switch said to exit. */
  predicate Ordered(s: Stmt)
    decreases s
  {
    match s
    case Synthetic(body) => OrderedBlock(body)
    case NamespaceBlock(_, body) => OrderedBlock(body)
    case IncludeOnceGuard(body) => OrderedBlock(body)
    case If(_, thenBody, elseifs, elseBody) =>
      OrderedBlock(thenBody) && OrderedClauses(elseifs) && OrderedOptBlock(elseBody)
    case IfDef(thenBody, elseBody) => OrderedBlock(thenBody) && OrderedOptBlock(elseBody)
    case While(_, body) => OrderedBlock(body)
    case DoWhile(body, cond) =>
      && OrderedBlock(body)
      && (BlockGuaranteesFunctionExit(body) && !(ExprIsTruthyLiteral(cond) && !BlockMayBreakCurrentLoop(body))
          ==> JumpFreeToExit(body))
    case For(init, _, update, body) =>
      && (init.Some? ==> Ordered(init.value))
      && (update.Some? ==> Ordered(update.value))
      && OrderedBlock(body)
    case Foreach(_, body) => OrderedBlock(body)
    case Switch(_, cases, default) =>
      && OrderedClauses(cases) && OrderedOptBlock(default)
      && (StmtTerminalEffect(s) == ExitsCurrentBlock ==>
            ArmsJumpFreeToExit(cases) && (default.Body? ==> JumpFreeToExit(default.stmts)))
    case Try(tryBody, catches, finallyBody) =>
      OrderedBlock(tryBody) && OrderedClauses(catches) && OrderedOptBlock(finallyBody)
    case _ => true
  }

  // ----- the verdicts, under the ordering condition -----

  lemma {:induction false} ExprVerdict(e: Expr)
    requires ExprGuaranteesFunctionExit(e)
    ensures !Completes(e)
  {
    if e.ErrorSuppress? {
      ExprVerdict(e.inner);
    }
  }

  lemma {:induction false} BlockVerdict(stmts: Block)
    requires OrderedBlock(stmts)
    ensures BlockGuaranteesFunctionExit(stmts) || BlockTerminalEffect(stmts) != FallsThrough
            ==> Normal !in BlockOutcomes(stmts)
    ensures JumpFreeToExit(stmts) ==> NoneJumps(BlockOutcomes(stmts), 1, true)
    decreases stmts, 0
  {
    if stmts != [] {
      StmtVerdict(stmts[0]);
      BlockVerdict(stmts[1..]);
      if !StmtMayLeaveCurrentSwitch(stmts[0], 1) {
        StmtScan(stmts[0], 1, true);
      }
    }
  }

  lemma {:induction false} ClauseOrdered(clauses: seq<Clause>, i: nat)
    requires OrderedClauses(clauses) && i < |clauses|
    ensures OrderedBlock(clauses[i].body)
    ensures AllClausesGuaranteeFunctionExit(clauses) ==> BlockGuaranteesFunctionExit(clauses[i].body)
    ensures ArmsJumpFreeToExit(clauses) ==> JumpFreeToExit(clauses[i].body)
  {
    if i > 0 {
      ClauseOrdered(clauses[1..], i - 1);
    }
  }

  /** Every alternative of an accepted `if` is accepted. */
  lemma {:induction false} ElseifVerdict(s: Stmt, i: nat)
    requires s.If? && Ordered(s) && i <= |s.elseifs|
    requires StmtGuaranteesFunctionExit(s) || StmtTerminalEffect(s) != FallsThrough
    ensures Normal !in ElseifOutcomes(s, i)
    decreases s, 0, |s.elseifs| - i
  {
    if i == |s.elseifs| {
      BlockVerdict(s.elseBody.stmts);
    } else {
      ClauseOrdered(s.elseifs, i);
      BlockVerdict(s.elseifs[i].body);
      ElseifVerdict(s, i + 1);
    }
  }

  lemma {:induction false} CatchVerdict(catches: seq<Clause>)
    requires OrderedClauses(catches)
    requires AllClausesGuaranteeFunctionExit(catches) || FallsThrough !in ClauseEffects(catches)
    ensures Normal !in CatchOutcomes(catches)
    decreases catches, 0
  {
    if catches != [] {
      BlockVerdict(catches[0].body);
      CatchVerdict(catches[1..]);
    }
  }

  lemma {:induction false} ArmVerdict(s: Stmt, i: nat)
    requires s.Switch? && Ordered(s) && i <= |s.cases| && StmtTerminalEffect(s) == ExitsCurrentBlock
    ensures Normal !in EntryOutcomes(s, i) && NoneJumps(EntryOutcomes(s, i), 1, true)
    ensures Normal !in ArmOutcomes(s, i) && NoneJumps(ArmOutcomes(s, i), 1, true)
    decreases s, 0, |s.cases| - i
  {
    if i == |s.cases| {
      BlockVerdict(s.default.stmts);
      assert EntryOutcomes(s, i) == ArmOutcomes(s, i);
    } else {
      ClauseOrdered(s.cases, i);
      BlockVerdict(s.cases[i].body);
      ArmVerdict(s, i + 1);
    }
  }

  lemma LoopVerdict(s: Stmt)
    requires IsLoop(s) && Ordered(s) && StmtGuaranteesFunctionExit(s)
    ensures Normal !in StmtOutcomes(s)
    decreases s, 0
  {
    BlockVerdict(s.body);
    if !BlockMayBreakCurrentLoop(s.body) {
      BlockScan(s.body, 1, false);
    }
    assert Normal !in PassOutcomes(s);
    if !s.DoWhile? {
      assert Normal !in TestOutcomes(s);
    }
  }

  /** Accepted, or with a terminal effect. */
  predicate Accepted(s: Stmt) {
    StmtGuaranteesFunctionExit(s) || StmtTerminalEffect(s) != FallsThrough
  }

  lemma IfVerdict(s: Stmt)
    requires (s.If? || s.IfDef?) && Ordered(s) && Accepted(s)
    ensures Normal !in StmtOutcomes(s)
    decreases s, 0
  {
    BlockVerdict(s.thenBody);
    if s.If? {
      ElseifVerdict(s, 0);
    } else {
      BlockVerdict(s.elseBody.stmts);
    }
  }

  lemma TryVerdict(s: Stmt)
    requires s.Try? && Ordered(s) && Accepted(s)
    ensures Normal !in StmtOutcomes(s)
    decreases s, 0
  {
    BlockVerdict(s.tryBody);
    if s.finallyBody.Body? {
      BlockVerdict(s.finallyBody.stmts);
    }
    if AllClausesGuaranteeFunctionExit(s.catches) || FallsThrough !in ClauseEffects(s.catches) {
      CatchVerdict(s.catches);
    }
  }

  lemma {:induction false} StmtVerdict(s: Stmt)
    requires Ordered(s)
    ensures StmtGuaranteesFunctionExit(s) ==> Normal !in StmtOutcomes(s)
    ensures StmtTerminalEffect(s) != FallsThrough ==> Normal !in StmtOutcomes(s)
    decreases s, 1
  {
    if Accepted(s) {
      match s
      case ExprStmt(e) => ExprVerdict(e);
      case Synthetic(body) => BlockVerdict(body);
      case NamespaceBlock(_, body) => BlockVerdict(body);
      case If(_, _, _, _) => IfVerdict(s);
      case IfDef(_, _) => IfVerdict(s);
      case While(_, _) => LoopVerdict(s);
      case DoWhile(_, _) => LoopVerdict(s);
      case For(_, _, _, _) => LoopVerdict(s);
      case Switch(_, _, _) => ArmVerdict(s, 0);
      case Try(_, _, _) => TryVerdict(s);
      case _ =>
    }
  }

  /** An accepted statement never completes normally, and neither does one with
      a terminal effect. */
  lemma AcceptedStatementNeverCompletes(s: Stmt)
    requires Ordered(s)
    requires StmtGuaranteesFunctionExit(s) || StmtGuaranteesTermination(s)
    ensures !Runs(s, Normal)
  {
    StmtVerdict(s);
    OutcomesAreExact(s, Normal);
  }

  /** An accepted function body whose jumps all stay inside returns, throws or
      exits in every finite run. */
  lemma AcceptedBodyLeavesTheFunction(body: Block, o: Outcome)
    requires OrderedBlock(body) && BlockGuaranteesFunctionExit(body)
    requires !AnyMayJump(body, 1, true)
    requires RunsBlock(body, o)
    ensures o in {Returned, Thrown, Exited}
  {
    BlockVerdict(body);
    BlockScan(body, 1, true);
    BlockOutcomesAreExact(body, o);
  }

  /** The statement whose effect `BlockTerminalEffect` reports. */
  function TerminatingIndex(stmts: Block): (m: nat)
    requires BlockTerminalEffect(stmts) != FallsThrough
    ensures m < |stmts| && StmtTerminalEffect(stmts[m]) == BlockTerminalEffect(stmts)
    ensures forall i :: 0 <= i < m ==> StmtTerminalEffect(stmts[i]) == FallsThrough
  {
    if StmtTerminalEffect(stmts[0]) != FallsThrough then 0 else 1 + TerminatingIndex(stmts[1..])
  }

  lemma {:induction false} PrefixOutcomes(stmts: Block, m: nat)
    requires m < |stmts| && Normal !in StmtOutcomes(stmts[m])
    ensures BlockOutcomes(stmts) == BlockOutcomes(stmts[..m + 1])
  {
    assert stmts[..m + 1][0] == stmts[0];
    if m > 0 {
      PrefixOutcomes(stmts[1..], m - 1);
      assert stmts[..m + 1][1..] == stmts[1..][..m];
    }
  }

  lemma {:induction false} OrderedAt(stmts: Block, m: nat)
    requires OrderedBlock(stmts) && m < |stmts|
    ensures Ordered(stmts[m])
  {
    if m > 0 {
      OrderedAt(stmts[1..], m - 1);
    }
  }

  /** Everything after the statement picked by `BlockTerminalEffect` is dead: the
      block and its prefix up to that statement have the same runs. */
  lemma BlockEndsAtItsTerminator(stmts: Block, o: Outcome)
    requires OrderedBlock(stmts) && BlockTerminalEffect(stmts) != FallsThrough
    ensures RunsBlock(stmts, o) <==> RunsBlock(stmts[..TerminatingIndex(stmts) + 1], o)
    ensures !RunsBlock(stmts, Normal)
  {
    var m := TerminatingIndex(stmts);
    OrderedAt(stmts, m);
    StmtVerdict(stmts[m]);
    PrefixOutcomes(stmts, m);
    BlockOutcomesAreExact(stmts, o);
    BlockOutcomesAreExact(stmts[..m + 1], o);
    BlockVerdict(stmts);
    BlockOutcomesAreExact(stmts, Normal);
  }

  // ----- without the ordering condition -----

  /** A do-while accepted for its body completes exactly when the body can still
      break out of it, or continue to a test that may fail. */
  lemma DoWhileVerdictFails(body: Block, cond: Expr)
    requires OrderedBlock(body) && BlockGuaranteesFunctionExit(body)
    ensures StmtGuaranteesFunctionExit(DoWhile(body, cond))
    ensures Runs(DoWhile(body, cond), Normal) <==>
              Brk(1) in BlockOutcomes(body) || (Cont(1) in BlockOutcomes(body) && Evaluates(cond, Value(false)))
  {
    var s := DoWhile(body, cond);
    BlockVerdict(body);
    OutcomesAreExact(s, Normal);
    if Brk(1) in BlockOutcomes(body) {
      assert Resume(Brk(1)) == Leave(Normal);
      assert Normal in PassOutcomes(s);
    } else if Cont(1) in BlockOutcomes(body) {
      assert Resume(Cont(1)) == Again;
      assert MayResume(BlockOutcomes(body));
      assert Normal !in PassOutcomes(s);
    }
  }

  lemma {:induction false} FallThroughEnds(s: Stmt, i: nat)
    requires s.Switch? && OrderedClauses(s.cases) && OrderedOptBlock(s.default) && i <= |s.cases|
    requires StmtTerminalEffect(s) == ExitsCurrentBlock
    ensures Normal !in ArmOutcomes(s, i) && Normal !in EntryOutcomes(s, i)
    decreases |s.cases| - i
  {
    if i == |s.cases| {
      BlockVerdict(s.default.stmts);
      assert EntryOutcomes(s, i) == ArmOutcomes(s, i);
    } else {
      FallThroughEnds(s, i + 1);
    }
  }

  /** A switch said to exit completes exactly when one of its arms can jump out of it. */
  lemma SwitchVerdictFails(s: Stmt)
    requires s.Switch? && OrderedClauses(s.cases) && OrderedOptBlock(s.default)
    requires StmtTerminalEffect(s) == ExitsCurrentBlock
    ensures Runs(s, Normal) <==> Brk(1) in EntryOutcomes(s, 0) || Cont(1) in EntryOutcomes(s, 0)
  {
    FallThroughEnds(s, 0);
    OutcomesAreExact(s, Normal);
    assert LeaveSwitch(Brk(1)) == Normal && LeaveSwitch(Cont(1)) == Normal;
    assert forall o :: LeaveSwitch(o) == Normal ==> o in {Normal, Brk(1), Cont(1)};
  }

  const OPAQUE := OtherExpr(0)

  /** `do { break; return; } while (false)` is accepted and completes. */
  lemma BreakBeforeReturn()
    ensures var s := DoWhile([Break(1), Return(None)], BoolLiteral(false));
            StmtGuaranteesFunctionExit(s) && !Ordered(s) && Runs(s, Normal)
  {
    var body := [Break(1), Return(None)];
    assert StmtGuaranteesFunctionExit(body[1..][0]);
    DoWhileVerdictFails(body, BoolLiteral(false));
  }

  /** `do { while (true) { continue 2; } } while (false)` is accepted and completes. */
  lemma ContinuePastInfiniteLoop()
    ensures var s := DoWhile([While(BoolLiteral(true), [Continue(2)])], BoolLiteral(false));
            StmtGuaranteesFunctionExit(s) && !Ordered(s) && Runs(s, Normal)
  {
    var inner := While(BoolLiteral(true), [Continue(2)]);
    var body := [inner];
    assert BlockOutcomes([Continue(2)]) == {Cont(2)};
    assert Resume(Cont(2)) == Leave(Cont(1));
    assert Cont(1) in PassOutcomes(inner);
    assert StmtOutcomes(inner) == TestOutcomes(inner);
    assert body[1..] == [] && [Continue(2)][1..] == [];
    assert OrderedBlock([Continue(2)]) && Ordered(inner) && OrderedBlock(body);
    assert Cont(1) in BlockOutcomes(body);
    DoWhileVerdictFails(body, BoolLiteral(false));
  }

  /** `if ($c) { break; } return;` */
  function BreakingArm(): Block {
    [If(OPAQUE, [Break(1)], [], NoBody), Return(None)]
  }

  /** `switch ($x) { case 1: if ($c) { break; } return; default: return; }` */
  function BreakingSwitch(): Stmt {
    Switch(OPAQUE, [Clause([OPAQUE], BreakingArm())], Body([Return(None)]))
  }

  lemma ArmCanBreak()
    ensures Brk(1) in BlockOutcomes(BreakingArm())
  {
    var test := If(OPAQUE, [Break(1)], [], NoBody);
    assert [Break(1)][1..] == [];
    assert Brk(1) in BlockOutcomes([Break(1)]);
    assert Brk(1) in StmtOutcomes(test);
    assert BreakingArm()[0] == test;
  }

  lemma ArmIsSaidToExit()
    ensures BlockTerminalEffect(BreakingArm()) == ExitsCurrentBlock
            && BlockTerminalEffect([Return(None)]) == ExitsCurrentBlock
  {
    hide BlockOutcomes, StmtOutcomes;
    assert BreakingArm()[1..] == [Return(None)];
  }

  lemma SwitchIsSaidToExit()
    ensures StmtTerminalEffect(BreakingSwitch()) == ExitsCurrentBlock
  {
    ArmIsSaidToExit();
    hide BlockTerminalEffect;
    assert ClauseEffects(BreakingSwitch().cases) == [BlockTerminalEffect(BreakingArm())];
  }

  lemma ArmIsOrdered()
    ensures OrderedBlock(BreakingArm()) && OrderedBlock([Return(None)]) && !JumpFreeToExit(BreakingArm())
  {
    hide StmtTerminalEffect, StmtOutcomes;
    assert BreakingArm()[1..] == [Return(None)] && [Return(None)][1..] == [] && [Break(1)][1..] == [];
    assert OrderedBlock([Break(1)]);
    assert AnyMayJump([Break(1)], 1, true);
  }

  /** The switch is said to leave the block and completes. */
  lemma ConditionalBreakInArm()
    ensures var s := BreakingSwitch();
            StmtTerminalEffect(s) == ExitsCurrentBlock && !Ordered(s) && Runs(s, Normal)
  {
    var s := BreakingSwitch();
    ArmCanBreak();
    SwitchIsSaidToExit();
    ArmIsOrdered();
    hide BlockOutcomes, StmtTerminalEffect, JumpFreeToExit, MayJump, AnyMayJump;
    assert s.cases[1..] == [];
    assert Brk(1) in ArmOutcomes(s, 0);
    SwitchVerdictFails(s);
  }
}
