/** Where conditions are open, the terminal effects are not only sound but exact. */
module TerminationPrecise {
  import opened Prelude
  import opened Ast
  import opened Termination
  import opened BigStep
  import opened Outcomes
  import opened TerminationSound

  /** May come out either way. */
  predicate Undecided(e: Expr) {
    Evaluates(e, Value(true)) && Evaluates(e, Value(false))
  }

  predicate OpenBlock(stmts: Block)
    decreases stmts
  {
    stmts == [] || (Open(stmts[0]) && OpenBlock(stmts[1..]))
  }

  predicate OpenOptBlock(block: OptBlock)
    decreases block
  {
    block.Body? ==> OpenBlock(block.stmts)
  }

  predicate OpenClauses(clauses: seq<Clause>)
    decreases clauses
  {
    clauses == [] || (OpenBlock(clauses[0].body) && OpenClauses(clauses[1..]))
  }

  /** Conditions are undecided, expressions may complete, and catch clauses can be reached.
      Do-while loops and namespace blocks, to which the effect analysis is blind, are excluded. */
  predicate Open(s: Stmt)
    decreases s
  {
    match s
    case Return(result) => result.None? || Completes(result.value)
    case Throw(e) => Completes(e)
    case ExprStmt(e) => Completes(e)
    case Synthetic(body) => OpenBlock(body)
    case NamespaceBlock(_, _) => false
    case If(cond, thenBody, elseifs, elseBody) =>
      && Undecided(cond) && OpenBlock(thenBody) && OpenClauses(elseifs) && OpenOptBlock(elseBody)
      && (forall i :: 0 <= i < |elseifs| ==> Undecided(Guard(elseifs[i])))
    case IfDef(thenBody, elseBody) => OpenBlock(thenBody) && OpenOptBlock(elseBody)
    case While(cond, _) => Evaluates(cond, Value(false))
    case DoWhile(_, _) => false
    case For(init, test, _, _) =>
      (init.None? || (Open(init.value) && StmtTerminalEffect(init.value) == FallsThrough)) && TestFails(test)
    case Foreach(subject, _) => Completes(subject)
    case Switch(_, cases, default) => OpenClauses(cases) && OpenOptBlock(default)
    case Try(tryBody, catches, finallyBody) =>
      && OpenBlock(tryBody) && OpenClauses(catches) && OpenOptBlock(finallyBody)
      && (catches == [] || Thrown in BlockOutcomes(tryBody))
    case _ => true
  }

  /** What the effect promises about the outcomes, and that not all of them are exits. */
  ghost predicate Fits(effect: TerminalEffect, outcomes: set<Outcome>) {
    && (effect == FallsThrough ==> Normal in outcomes)
    && (effect == Breaks || effect == TerminatesMixed ==> Brk(1) in outcomes)
    && (exists o :: o in outcomes && o != Exited)
  }

  lemma {:induction false} BlockFits(stmts: Block)
    requires OpenBlock(stmts)
    ensures Fits(BlockTerminalEffect(stmts), BlockOutcomes(stmts))
    decreases stmts, 0
  {
    if stmts == [] {
      assert Normal in BlockOutcomes(stmts);
    } else {
      StmtFits(stmts[0]);
      BlockFits(stmts[1..]);
      var head, tail := StmtOutcomes(stmts[0]), BlockOutcomes(stmts[1..]);
      var o :| o in head && o != Exited;
      var t :| t in tail && t != Exited;
      assert (if Normal in head then t else o) in BlockOutcomes(stmts);
    }
  }

  lemma {:induction false} ClausesFit(clauses: seq<Clause>, i: nat)
    requires OpenClauses(clauses) && i < |clauses|
    ensures Fits(BlockTerminalEffect(clauses[i].body), BlockOutcomes(clauses[i].body))
    decreases clauses, 0
  {
    if i == 0 {
      BlockFits(clauses[0].body);
    } else {
      ClausesFit(clauses[1..], i - 1);
    }
  }

  // ----- every branch can be reached -----

  lemma {:induction false} ElseifsReach(s: Stmt, i: nat, j: nat)
    requires s.If? && i <= |s.elseifs| && i <= j
    requires forall k :: 0 <= k < |s.elseifs| ==> Undecided(Guard(s.elseifs[k]))
    ensures OptBlockOutcomes(s.elseBody) <= ElseifOutcomes(s, i)
    ensures j < |s.elseifs| ==> BlockOutcomes(s.elseifs[j].body) <= ElseifOutcomes(s, i)
    decreases |s.elseifs| - i
  {
    if i < |s.elseifs| {
      assert Undecided(Guard(s.elseifs[i]));
      ElseifsReach(s, i + 1, if j == i then i + 1 else j);
    }
  }

  lemma {:induction false} EntriesReach(s: Stmt, i: nat, j: nat)
    requires s.Switch? && i <= |s.cases| && i <= j
    ensures OptBlockOutcomes(s.default) <= EntryOutcomes(s, i)
    ensures j < |s.cases| ==> BlockOutcomes(s.cases[j].body) - {Normal} <= EntryOutcomes(s, i)
    decreases |s.cases| - i
  {
    if i < |s.cases| {
      EntriesReach(s, i + 1, if j == i then i + 1 else j);
    }
  }

  lemma {:induction false} CatchesReach(catches: seq<Clause>, j: nat)
    requires j < |catches|
    ensures BlockOutcomes(catches[j].body) <= CatchOutcomes(catches)
  {
    if j > 0 {
      CatchesReach(catches[1..], j - 1);
    }
  }

  /** A merged effect other than an exit is found among the branches. */
  lemma MergedFrom(effects: seq<TerminalEffect>) returns (k: nat)
    requires effects != [] && MergedEffect(effects) != ExitsCurrentBlock
    ensures k < |effects|
    ensures MergedEffect(effects) == FallsThrough ==> effects[k] == FallsThrough
    ensures MergedEffect(effects) != FallsThrough ==> effects[k] == Breaks || effects[k] == TerminatesMixed
  {
    assert effects[0] in effects;
    var wanted :=
      if FallsThrough in effects then FallsThrough
      else if TerminatesMixed in effects then TerminatesMixed
      else Breaks;
    k :| 0 <= k < |effects| && effects[k] == wanted;
  }

  // ----- statements -----

  lemma IfFits(s: Stmt)
    requires s.If? && Open(s)
    ensures Fits(StmtTerminalEffect(s), StmtOutcomes(s))
    decreases s, 0
  {
    BlockFits(s.thenBody);
    ElseifsReach(s, 0, 0);
    var effect := StmtTerminalEffect(s);
    var o :| o in BlockOutcomes(s.thenBody) && o != Exited;
    assert o in StmtOutcomes(s);
    if s.elseBody.NoBody? {
      assert Normal in OptBlockOutcomes(s.elseBody);
    } else {
      BlockFits(s.elseBody.stmts);
      if effect != ExitsCurrentBlock {
        var effects :=
          [BlockTerminalEffect(s.elseBody.stmts), BlockTerminalEffect(s.thenBody)] + ClauseEffects(s.elseifs);
        var k := MergedFrom(effects);
        if k >= 2 {
          ClausesFit(s.elseifs, k - 2);
          ElseifsReach(s, 0, k - 2);
        }
      }
    }
  }

  lemma IfDefFits(s: Stmt)
    requires s.IfDef? && Open(s)
    ensures Fits(StmtTerminalEffect(s), StmtOutcomes(s))
    decreases s, 0
  {
    BlockFits(s.thenBody);
    var o :| o in BlockOutcomes(s.thenBody) && o != Exited;
    assert o in StmtOutcomes(s);
    if s.elseBody.Body? {
      BlockFits(s.elseBody.stmts);
      var effects := [BlockTerminalEffect(s.elseBody.stmts), BlockTerminalEffect(s.thenBody)];
      if MergedEffect(effects) != ExitsCurrentBlock {
        var k := MergedFrom(effects);
      }
    }
  }

  lemma SwitchFits(s: Stmt)
    requires s.Switch? && Open(s)
    ensures Fits(StmtTerminalEffect(s), StmtOutcomes(s))
    decreases s, 0
  {
    assert Thrown in StmtOutcomes(s);
    assert LeaveSwitch(Brk(1)) == Normal && LeaveSwitch(Normal) == Normal;
    if s.default.Body? && StmtTerminalEffect(s) == FallsThrough {
      BlockFits(s.default.stmts);
      EntriesReach(s, 0, 0);
      if BlockTerminalEffect(s.default.stmts) == ExitsCurrentBlock {
        var wanted :| wanted in ClauseEffects(s.cases) && (wanted == Breaks || wanted == TerminatesMixed);
        var j :| 0 <= j < |s.cases| && ClauseEffects(s.cases)[j] == wanted;
        ClausesFit(s.cases, j);
        EntriesReach(s, 0, j);
        assert Brk(1) in EntryOutcomes(s, 0);
      } else {
        assert Normal in EntryOutcomes(s, 0) || Brk(1) in EntryOutcomes(s, 0);
      }
    }
  }

  /** The guarded part of a `try` fits the merged effect of its branches. */
  lemma GuardedFits(s: Stmt)
    requires s.Try? && Open(s)
    ensures Fits(MergedEffect([BlockTerminalEffect(s.tryBody)] + ClauseEffects(s.catches)), GuardedOutcomes(s))
    decreases s, 0
  {
    BlockFits(s.tryBody);
    var o :| o in BlockOutcomes(s.tryBody) && o != Exited;
    assert o in GuardedOutcomes(s);
    var effects := [BlockTerminalEffect(s.tryBody)] + ClauseEffects(s.catches);
    if MergedEffect(effects) != ExitsCurrentBlock {
      var k := MergedFrom(effects);
      if k > 0 {
        ClausesFit(s.catches, k - 1);
        CatchesReach(s.catches, k - 1);
      }
    }
  }

  lemma TryFits(s: Stmt)
    requires s.Try? && Open(s)
    ensures Fits(StmtTerminalEffect(s), StmtOutcomes(s))
    decreases s, 1
  {
    GuardedFits(s);
    if s.finallyBody.Body? {
      BlockFits(s.finallyBody.stmts);
      var guarded, last := GuardedOutcomes(s), BlockOutcomes(s.finallyBody.stmts);
      var g :| g in guarded && g != Exited;
      var l :| l in last && l != Exited;
      assert g in guarded - {Exited};
      assert (if Normal in last then g else l) in StmtOutcomes(s);
    }
  }

  lemma {:induction false} StmtFits(s: Stmt)
    requires Open(s)
    ensures Fits(StmtTerminalEffect(s), StmtOutcomes(s))
    decreases s, 2
  {
    assert (s.ExprStmt? || s.While? || s.Foreach? || s.IncludeOnceGuard? || s.Assign? || s.Include? || s.NamespaceDecl?
            || s.FunctionDecl? || s.OtherStmt?) ==> Normal in StmtOutcomes(s);
    match s
    case Return(_) => assert Returned in StmtOutcomes(s);
    case Throw(_) => assert Thrown in StmtOutcomes(s);
    case Break(n) => assert Brk(n) in StmtOutcomes(s);
    case Continue(n) => assert Cont(n) in StmtOutcomes(s);
    case Synthetic(body) => BlockFits(body);
    case If(_, _, _, _) => IfFits(s);
    case IfDef(_, _) => IfDefFits(s);
    case For(init, _, _, _) =>
      if init.Some? {
        StmtFits(init.value);
      }
      assert Normal in StmtOutcomes(s);
    case Switch(_, _, _) => SwitchFits(s);
    case Try(_, _, _) => TryFits(s);
    case _ =>
  }

  /** On open statements the effect analysis decides whether a statement can complete. */
  lemma EffectIsExact(s: Stmt)
    requires Open(s) && Ordered(s)
    ensures StmtGuaranteesTermination(s) <==> !Runs(s, Normal)
  {
    StmtFits(s);
    StmtVerdict(s);
    OutcomesAreExact(s, Normal);
  }

  /** A block said to break, on some or all paths, does break. */
  lemma BreakIsReal(stmts: Block)
    requires OpenBlock(stmts) && BlockTerminalEffect(stmts) in {Breaks, TerminatesMixed}
    ensures RunsBlock(stmts, Brk(1))
  {
    BlockFits(stmts);
    BlockOutcomesAreExact(stmts, Brk(1));
  }

  /** The effect analysis does not look into namespace blocks or loops: a block that returns
      is said to fall through and never completes. */
  lemma ReturnIsOverlooked(namespace: Option<string>)
    ensures var s := NamespaceBlock(namespace, [Return(None)]);
            StmtTerminalEffect(s) == FallsThrough && !Runs(s, Normal)
    ensures var s := DoWhile([Return(None)], BoolLiteral(false));
            StmtTerminalEffect(s) == FallsThrough && !Runs(s, Normal)
  {
    var body := [Return(None)];
    assert body[1..] == [];
    assert Ordered(Return(None)) && OrderedBlock(body) && BlockGuaranteesFunctionExit(body) && JumpFreeToExit(body);
    AcceptedStatementNeverCompletes(NamespaceBlock(namespace, body));
    AcceptedStatementNeverCompletes(DoWhile(body, BoolLiteral(false)));
  }

  // ----- the exit guarantee -----

  predicate ExitOpenBlock(stmts: Block)
    decreases stmts
  {
    stmts == [] || (ExitOpen(stmts[0]) && ExitOpenBlock(stmts[1..]))
  }

  predicate ExitOpenClauses(clauses: seq<Clause>)
    decreases clauses
  {
    clauses == [] || (ExitOpenBlock(clauses[0].body) && ExitOpenClauses(clauses[1..]))
  }

  /** A break that the scan sees in a loop body can be reached. */
  predicate BreakReachable(body: Block) {
    BlockMayBreakCurrentLoop(body) ==> exists o :: o in BlockOutcomes(body) && o.Brk?
  }

  /** If the scan sees a jump out of a switch in one of its arms, some jump can be reached. */
  predicate JumpReachable(body: Block) {
    LeavesSwitchBeforeExit(body) ==> exists o :: o in BlockOutcomes(body) && (o.Brk? || o.Cont?)
  }

  predicate JumpsReachable(clauses: seq<Clause>) {
    forall i :: 0 <= i < |clauses| ==> JumpReachable(clauses[i].body)
  }

  /** Like `Open`, for the constructs that the exit guarantee looks into: conditions of
      branches are undecided, tests of loops can fail or hold for ever, and neither dead
      jumps nor dead catch clauses mislead the scans. */
  predicate ExitOpen(s: Stmt)
    decreases s
  {
    match s
    case Synthetic(body) => ExitOpenBlock(body)
    case NamespaceBlock(_, body) => ExitOpenBlock(body)
    case If(cond, thenBody, elseifs, elseBody) =>
      && Undecided(cond) && ExitOpenBlock(thenBody) && ExitOpenClauses(elseifs)
      && (elseBody.Body? ==> ExitOpenBlock(elseBody.stmts))
      && (forall i :: 0 <= i < |elseifs| ==> Undecided(Guard(elseifs[i])))
    case IfDef(thenBody, elseBody) => ExitOpenBlock(thenBody) && (elseBody.Body? ==> ExitOpenBlock(elseBody.stmts))
    case While(cond, body) => Evaluates(cond, Value(false)) || (ExprIsTruthyLiteral(cond) && BreakReachable(body))
    case DoWhile(body, cond) =>
      ExitOpenBlock(body) && (Evaluates(cond, Value(false)) || (ExprIsTruthyLiteral(cond) && BreakReachable(body)))
    case For(init, test, _, body) =>
      && (init.Some? ==> Normal in StmtOutcomes(init.value))
      && (TestFails(test) || ((test.None? || ExprIsTruthyLiteral(test.value)) && BreakReachable(body)))
    case Foreach(subject, _) => Completes(subject)
    case Switch(_, cases, default) =>
      && OpenClauses(cases) && OpenOptBlock(default)
      && JumpsReachable(cases) && (default.Body? ==> JumpReachable(default.stmts))
    case Try(tryBody, catches, finallyBody) =>
      && ExitOpenBlock(tryBody) && ExitOpenClauses(catches) && (finallyBody.Body? ==> ExitOpenBlock(finallyBody.stmts))
      && (catches == [] || Thrown in BlockOutcomes(tryBody))
    case _ => true
  }

  /** Some outcome keeps control inside the function. */
  ghost predicate Lingers(outcomes: set<Outcome>) {
    exists o :: o in outcomes && o !in {Returned, Thrown, Exited}
  }

  /** Every expression that is not taken for an exit may complete. */
  lemma {:induction false} ExprLingers(e: Expr)
    requires !ExprGuaranteesFunctionExit(e)
    ensures Completes(e)
  {
    if e.ErrorSuppress? {
      ExprLingers(e.inner);
    }
  }

  lemma TruthyPasses(e: Expr)
    requires ExprIsTruthyLiteral(e)
    ensures Evaluates(e, Value(true))
  {
  }

  lemma {:induction false} BlockLingers(stmts: Block)
    requires ExitOpenBlock(stmts) && !BlockGuaranteesFunctionExit(stmts)
    ensures Lingers(BlockOutcomes(stmts))
    decreases stmts, 0
  {
    if stmts == [] {
      assert Normal in BlockOutcomes(stmts);
    } else {
      StmtLingers(stmts[0]);
      BlockLingers(stmts[1..]);
      var o :| o in StmtOutcomes(stmts[0]) && o !in {Returned, Thrown, Exited};
      var t :| t in BlockOutcomes(stmts[1..]) && t !in {Returned, Thrown, Exited};
      assert (if Normal in StmtOutcomes(stmts[0]) then t else o) in BlockOutcomes(stmts);
    }
  }

  /** The clause that is not guaranteed to exit. */
  lemma {:induction false} ClauseLingers(clauses: seq<Clause>) returns (i: nat)
    requires ExitOpenClauses(clauses) && !AllClausesGuaranteeFunctionExit(clauses)
    ensures i < |clauses| && Lingers(BlockOutcomes(clauses[i].body))
    decreases clauses, 0
  {
    if BlockGuaranteesFunctionExit(clauses[0].body) {
      var k := ClauseLingers(clauses[1..]);
      i := k + 1;
    } else {
      BlockLingers(clauses[0].body);
      i := 0;
    }
  }

  lemma LingersWithin(some: set<Outcome>, all: set<Outcome>)
    requires Lingers(some) && some <= all
    ensures Lingers(all)
  {
    var o :| o in some && o !in {Returned, Thrown, Exited};
    assert o in all;
  }

  lemma IfLingers(s: Stmt)
    requires s.If? && ExitOpen(s) && !StmtGuaranteesFunctionExit(s)
    ensures Lingers(StmtOutcomes(s))
    decreases s, 0
  {
    ElseifsReach(s, 0, 0);
    if s.elseBody.NoBody? {
      assert Normal in OptBlockOutcomes(s.elseBody);
      assert Normal in StmtOutcomes(s);
    } else if !BlockGuaranteesFunctionExit(s.elseBody.stmts) {
      BlockLingers(s.elseBody.stmts);
      LingersWithin(BlockOutcomes(s.elseBody.stmts), StmtOutcomes(s));
    } else if !BlockGuaranteesFunctionExit(s.thenBody) {
      BlockLingers(s.thenBody);
      LingersWithin(BlockOutcomes(s.thenBody), StmtOutcomes(s));
    } else {
      var i := ClauseLingers(s.elseifs);
      ElseifsReach(s, 0, i);
      LingersWithin(BlockOutcomes(s.elseifs[i].body), StmtOutcomes(s));
    }
  }

  lemma IfDefLingers(s: Stmt)
    requires s.IfDef? && ExitOpen(s) && !StmtGuaranteesFunctionExit(s)
    ensures Lingers(StmtOutcomes(s))
    decreases s, 0
  {
    if s.elseBody.NoBody? {
      assert Normal in StmtOutcomes(s);
    } else if !BlockGuaranteesFunctionExit(s.elseBody.stmts) {
      BlockLingers(s.elseBody.stmts);
      LingersWithin(OptBlockOutcomes(s.elseBody), StmtOutcomes(s));
    } else {
      BlockLingers(s.thenBody);
      LingersWithin(BlockOutcomes(s.thenBody), StmtOutcomes(s));
    }
  }

  lemma TryLingers(s: Stmt)
    requires s.Try? && ExitOpen(s) && !StmtGuaranteesFunctionExit(s)
    ensures Lingers(StmtOutcomes(s))
    decreases s, 0
  {
    var guarded := GuardedOutcomes(s);
    if !BlockGuaranteesFunctionExit(s.tryBody) {
      BlockLingers(s.tryBody);
      LingersWithin(BlockOutcomes(s.tryBody), guarded);
    } else {
      var i := ClauseLingers(s.catches);
      CatchesReach(s.catches, i);
      LingersWithin(BlockOutcomes(s.catches[i].body), guarded);
    }
    if s.finallyBody.Body? {
      var last := BlockOutcomes(s.finallyBody.stmts);
      BlockLingers(s.finallyBody.stmts);
      var g :| g in guarded && g !in {Returned, Thrown, Exited};
      var l :| l in last && l !in {Returned, Thrown, Exited};
      assert g in guarded - {Exited};
      assert (if Normal in last then g else l) in StmtOutcomes(s);
    }
  }

  /** A reachable break leaves its loop. */
  lemma BreakLeavesLoop(s: Stmt)
    requires IsLoop(s) && BreakReachable(s.body) && BlockMayBreakCurrentLoop(s.body)
    ensures Lingers(PassOutcomes(s))
  {
    var o :| o in BlockOutcomes(s.body) && o.Brk?;
    assert Resume(o) == Leave(if o.n == 1 then Normal else Brk(o.n - 1));
    assert Resume(o).outcome in Leaving(BlockOutcomes(s.body));
    assert Resume(o).outcome in PassOutcomes(s);
  }

  /** A loop tested before its body, from the test on. */
  lemma TestLingers(s: Stmt)
    requires IsLoop(s)
    requires TestFails(LoopTest(s))
             || ((LoopTest(s).None? || ExprIsTruthyLiteral(LoopTest(s).value)) && BreakReachable(s.body)
               && BlockMayBreakCurrentLoop(s.body))
    ensures Lingers(TestOutcomes(s))
  {
    if TestFails(LoopTest(s)) {
      assert Normal in TestOutcomes(s);
    } else {
      if LoopTest(s).Some? {
        TruthyPasses(LoopTest(s).value);
      }
      BreakLeavesLoop(s);
      LingersWithin(PassOutcomes(s), TestOutcomes(s));
    }
  }

  lemma DoWhileLingers(s: Stmt)
    requires s.DoWhile? && ExitOpen(s) && !StmtGuaranteesFunctionExit(s)
    ensures Lingers(StmtOutcomes(s))
    decreases s, 0
  {
    BlockLingers(s.body);
    var o :| o in BlockOutcomes(s.body) && o !in {Returned, Thrown, Exited};
    if Resume(o).Leave? {
      assert Resume(o).outcome in Leaving(BlockOutcomes(s.body));
      assert Resume(o).outcome in PassOutcomes(s);
      LingersWithin(PassOutcomes(s), StmtOutcomes(s));
    } else {
      assert MayResume(BlockOutcomes(s.body));
      TestLingers(s);
      LingersWithin(TestOutcomes(s), StmtOutcomes(s));
    }
  }

  lemma LoopLingers(s: Stmt)
    requires (s.While? || s.For? || s.Foreach?) && ExitOpen(s) && !StmtGuaranteesFunctionExit(s)
    ensures Lingers(StmtOutcomes(s))
  {
    TestLingers(s);
    LingersWithin(TestOutcomes(s), StmtOutcomes(s));
  }

  lemma {:induction false} LeavingClause(clauses: seq<Clause>) returns (i: nat)
    requires AnyClauseLeavesSwitchBeforeExit(clauses)
    ensures i < |clauses| && LeavesSwitchBeforeExit(clauses[i].body)
  {
    if LeavesSwitchBeforeExit(clauses[0].body) {
      i := 0;
    } else {
      var k := LeavingClause(clauses[1..]);
      i := k + 1;
    }
  }

  /** A reachable jump of an arm leaves its switch. */
  lemma JumpLeavesSwitch(s: Stmt, body: Block)
    requires s.Switch? && LeavesSwitchBeforeExit(body) && JumpReachable(body)
    requires BlockOutcomes(body) - {Normal} <= EntryOutcomes(s, 0)
    ensures Lingers(StmtOutcomes(s))
  {
    var o :| o in BlockOutcomes(body) && (o.Brk? || o.Cont?);
    assert o in EntryOutcomes(s, 0);
    assert LeaveSwitch(o) in StmtOutcomes(s);
  }

  lemma SwitchLingers(s: Stmt)
    requires s.Switch? && ExitOpen(s) && !StmtGuaranteesFunctionExit(s)
    ensures Lingers(StmtOutcomes(s))
  {
    if AnyClauseLeavesSwitchBeforeExit(s.cases) {
      var i := LeavingClause(s.cases);
      EntriesReach(s, 0, i);
      JumpLeavesSwitch(s, s.cases[i].body);
    } else if s.default.Body? && LeavesSwitchBeforeExit(s.default.stmts) {
      EntriesReach(s, 0, 0);
      JumpLeavesSwitch(s, s.default.stmts);
    } else {
      SwitchFits(s);
      assert StmtTerminalEffect(s) == FallsThrough;
    }
  }

  lemma {:induction false} StmtLingers(s: Stmt)
    requires ExitOpen(s) && !StmtGuaranteesFunctionExit(s)
    ensures Lingers(StmtOutcomes(s))
    decreases s, 2
  {
    assert (s.IncludeOnceGuard? || s.Assign? || s.Include? || s.NamespaceDecl? || s.FunctionDecl? || s.OtherStmt?)
           ==> Normal in StmtOutcomes(s);
    match s
    case Break(n) => assert Brk(n) in StmtOutcomes(s);
    case Continue(n) => assert Cont(n) in StmtOutcomes(s);
    case ExprStmt(e) => ExprLingers(e); assert Normal in StmtOutcomes(s);
    case Synthetic(body) => BlockLingers(body);
    case NamespaceBlock(_, body) => BlockLingers(body);
    case If(_, _, _, _) => IfLingers(s);
    case IfDef(_, _) => IfDefLingers(s);
    case While(_, _) => LoopLingers(s);
    case For(_, _, _, _) => LoopLingers(s);
    case Foreach(_, _) => LoopLingers(s);
    case DoWhile(_, _) => DoWhileLingers(s);
    case Switch(_, _, _) => SwitchLingers(s);
    case Try(_, _, _) => TryLingers(s);
    case _ =>
  }

  /** On such bodies, whose jumps all stay inside, the exit guarantee decides whether every
      finite run leaves the function. */
  lemma ExitGuaranteeIsExact(body: Block)
    requires ExitOpenBlock(body) && OrderedBlock(body) && !AnyMayJump(body, 1, true)
    ensures BlockGuaranteesFunctionExit(body) <==> forall o :: RunsBlock(body, o) ==> o in {Returned, Thrown, Exited}
  {
    if BlockGuaranteesFunctionExit(body) {
      forall o | RunsBlock(body, o) ensures o in {Returned, Thrown, Exited} {
        AcceptedBodyLeavesTheFunction(body, o);
      }
    } else {
      BlockLingers(body);
      var o :| o in BlockOutcomes(body) && o !in {Returned, Thrown, Exited};
      BlockOutcomesAreExact(body, o);
    }
  }
}
