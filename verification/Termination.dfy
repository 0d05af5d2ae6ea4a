/** The control-flow verdicts of src/termination.rs. */
module Termination {
  import opened Prelude
  import opened Ast
  import opened Names

  datatype TerminalEffect = FallsThrough | Breaks | ExitsCurrentBlock | TerminatesMixed

  // ----- expressions -----

  /** `exit` and `die` in any letter case. */
  predicate IsExitName(name: string) {
    var key := Lowercase(name);
    key == "exit" || key == "die"
  }

  predicate ExprGuaranteesFunctionExit(e: Expr) {
    match e
    case ThrowExpr(_) => true
    case ErrorSuppress(inner) => ExprGuaranteesFunctionExit(inner)
    case FunctionCall(name, _) => IsExitName(name.text)
    case _ => false
  }

  /** An IEEE-754 value compares equal to 0.0 exactly for the two zeros. */
  predicate FloatIsZero(bits: U64) {
    bits == 0 || bits == 0x8000_0000_0000_0000
  }

  predicate ExprIsTruthyLiteral(e: Expr) {
    match e
    case BoolLiteral(b) => b
    case IntLiteral(n) => n != 0
    case FloatLiteral(bits) => !FloatIsZero(bits)
    case StringLiteral(s) => s != "" && s != "0"
    case _ => false
  }

  // ----- terminal effects -----

  /** What merging the effects of alternative branches means. */
  function MergedEffect(effects: seq<TerminalEffect>): TerminalEffect {
    if effects == [] || FallsThrough in effects then FallsThrough
    else if TerminatesMixed in effects || (Breaks in effects && ExitsCurrentBlock in effects) then TerminatesMixed
    else if ExitsCurrentBlock in effects then ExitsCurrentBlock
    else Breaks
  }

  method MergeTerminalEffects(effects: seq<TerminalEffect>) returns (merged: TerminalEffect)
    ensures merged == MergedEffect(effects)
  {
    var sawAny, sawBreak, sawExit, sawMixed := false, false, false, false;
    for i := 0 to |effects|
      invariant FallsThrough !in effects[..i]
      invariant sawAny <==> i > 0
      invariant sawBreak <==> Breaks in effects[..i]
      invariant sawExit <==> ExitsCurrentBlock in effects[..i]
      invariant sawMixed <==> TerminatesMixed in effects[..i]
      invariant sawAny ==> sawBreak || sawExit || sawMixed
    {
      assert effects[..i + 1] == effects[..i] + [effects[i]];
      sawAny := true;
      match effects[i] {
        case FallsThrough => return FallsThrough;
        case Breaks => sawBreak := true;
        case ExitsCurrentBlock => sawExit := true;
        case TerminatesMixed => sawMixed := true;
      }
    }
    assert effects[..|effects|] == effects;
    if !sawAny {
      return FallsThrough;
    } else if sawMixed || (sawBreak && sawExit) {
      return TerminatesMixed;
    } else if sawExit {
      return ExitsCurrentBlock;
    } else if sawBreak {
      return Breaks;
    } else {
      return FallsThrough;
    }
  }

  function BlockTerminalEffect(stmts: Block): TerminalEffect
    decreases stmts
  {
    if stmts == [] then FallsThrough
    else
      var effect := StmtTerminalEffect(stmts[0]);
      if effect != FallsThrough then effect else BlockTerminalEffect(stmts[1..])
  }

  function ClauseEffects(clauses: seq<Clause>): (effects: seq<TerminalEffect>)
    ensures |effects| == |clauses|
    ensures forall i :: 0 <= i < |clauses| ==> effects[i] == BlockTerminalEffect(clauses[i].body)
    decreases clauses
  {
    if clauses == [] then []
    else [BlockTerminalEffect(clauses[0].body)] + ClauseEffects(clauses[1..])
  }

  function StmtTerminalEffect(s: Stmt): TerminalEffect
    decreases s
  {
    match s
    case Synthetic(body) => BlockTerminalEffect(body)
    case Return(_) => ExitsCurrentBlock
    case Throw(_) => ExitsCurrentBlock
    case Continue(_) => ExitsCurrentBlock
    case Break(levels) => if levels == 1 then Breaks else ExitsCurrentBlock
    case If(_, thenBody, elseifs, elseBody) =>
      if elseBody.NoBody? then FallsThrough
      else MergedEffect([BlockTerminalEffect(elseBody.stmts), BlockTerminalEffect(thenBody)] + ClauseEffects(elseifs))
    case IfDef(thenBody, elseBody) =>
      if elseBody.NoBody? then FallsThrough
      else MergedEffect([BlockTerminalEffect(elseBody.stmts), BlockTerminalEffect(thenBody)])
    case Try(tryBody, catches, finallyBody) =>
      if finallyBody.Body? && BlockTerminalEffect(finallyBody.stmts) != FallsThrough
      then BlockTerminalEffect(finallyBody.stmts)
      else MergedEffect([BlockTerminalEffect(tryBody)] + ClauseEffects(catches))
    case Switch(_, cases, default) =>
      if default.NoBody? then FallsThrough
      else SwitchEffect(ClauseEffects(cases), BlockTerminalEffect(default.stmts))
    case _ => FallsThrough
  }

  /** A switch leaves the block when its last arm does and no arm breaks on every path. */
  function SwitchEffect(arms: seq<TerminalEffect>, default: TerminalEffect): TerminalEffect {
    if default == ExitsCurrentBlock && Breaks !in arms && TerminatesMixed !in arms
    then ExitsCurrentBlock else FallsThrough
  }

  /** The reverse suffix loop over the arms. */
  method SwitchTerminalEffect(cases: seq<Clause>, default: OptBlock) returns (effect: TerminalEffect)
    ensures forall subject :: effect == StmtTerminalEffect(Switch(subject, cases, default))
  {
    if default.NoBody? {
      return FallsThrough;
    }
    ghost var arms := ClauseEffects(cases);
    var suffixExits := BlockTerminalEffect(default.stmts) == ExitsCurrentBlock;
    if !suffixExits {
      return FallsThrough;
    }
    var i := |cases|;
    while i > 0
      invariant 0 <= i <= |cases|
      invariant suffixExits
      invariant forall j :: i <= j < |cases| ==> arms[j] != Breaks && arms[j] != TerminatesMixed
    {
      i := i - 1;
      match BlockTerminalEffect(cases[i].body) {
        case ExitsCurrentBlock => suffixExits := true;
        case FallsThrough =>
        case Breaks => suffixExits := false;
        case TerminatesMixed => suffixExits := false;
      }
      if !suffixExits {
        assert arms[i] in arms;
        return FallsThrough;
      }
    }
    return ExitsCurrentBlock;
  }

  predicate StmtGuaranteesTermination(s: Stmt) {
    StmtTerminalEffect(s) != FallsThrough
  }

  // ----- jumps -----

  predicate AnyMayJump(stmts: Block, depth: Level, continues: bool)
    decreases stmts
  {
    stmts != [] && (MayJump(stmts[0], depth, continues) || AnyMayJump(stmts[1..], depth, continues))
  }

  predicate AnyClauseMayJump(clauses: seq<Clause>, depth: Level, continues: bool)
    decreases clauses
  {
    clauses != [] && (AnyMayJump(clauses[0].body, depth, continues) || AnyClauseMayJump(clauses[1..], depth, continues))
  }

  /** The common shape of the two jump scans; `continues` says whether `continue` counts. */
  predicate MayJump(s: Stmt, depth: Level, continues: bool)
    decreases s
  {
    match s
    case Break(levels) => levels >= depth
    case Continue(levels) => continues && levels >= depth
    case Synthetic(body) => AnyMayJump(body, depth, continues)
    case NamespaceBlock(_, body) => AnyMayJump(body, depth, continues)
    case IncludeOnceGuard(body) => AnyMayJump(body, depth, continues)
    case If(_, thenBody, elseifs, elseBody) =>
      || AnyMayJump(thenBody, depth, continues)
      || AnyClauseMayJump(elseifs, depth, continues)
      || (elseBody.Body? && AnyMayJump(elseBody.stmts, depth, continues))
    case IfDef(thenBody, elseBody) =>
      || AnyMayJump(thenBody, depth, continues)
      || (elseBody.Body? && AnyMayJump(elseBody.stmts, depth, continues))
    case Try(tryBody, catches, finallyBody) =>
      || AnyMayJump(tryBody, depth, continues)
      || AnyClauseMayJump(catches, depth, continues)
      || (finallyBody.Body? && AnyMayJump(finallyBody.stmts, depth, continues))
    case Switch(_, cases, default) =>
      || AnyClauseMayJump(cases, depth + 1, continues)
      || (default.Body? && AnyMayJump(default.stmts, depth + 1, continues))
    case While(_, body) => AnyMayJump(body, depth + 1, continues)
    case DoWhile(body, _) => AnyMayJump(body, depth + 1, continues)
    case Foreach(_, body) => AnyMayJump(body, depth + 1, continues)
    case For(init, _, update, body) =>
      || (init.Some? && MayJump(init.value, depth, continues))
      || (update.Some? && MayJump(update.value, depth, continues))
      || AnyMayJump(body, depth + 1, continues)
    case _ => false
  }

  predicate StmtMayBreakCurrentLoop(s: Stmt, depth: Level) {
    MayJump(s, depth, false)
  }

  predicate BlockMayBreakCurrentLoop(stmts: Block) {
    AnyMayJump(stmts, 1, false)
  }

  predicate StmtMayLeaveCurrentSwitch(s: Stmt, depth: Level) {
    MayJump(s, depth, true)
  }

  // ----- function exit -----

  predicate BlockGuaranteesFunctionExit(stmts: Block)
    decreases stmts
  {
    stmts != [] && (StmtGuaranteesFunctionExit(stmts[0]) || BlockGuaranteesFunctionExit(stmts[1..]))
  }

  predicate AllClausesGuaranteeFunctionExit(clauses: seq<Clause>)
    decreases clauses
  {
    clauses == [] || (BlockGuaranteesFunctionExit(clauses[0].body) && AllClausesGuaranteeFunctionExit(clauses[1..]))
  }

  predicate LeavesSwitchBeforeExit(stmts: Block)
    decreases stmts
  {
    && stmts != []
    && !StmtGuaranteesFunctionExit(stmts[0])
    && (StmtMayLeaveCurrentSwitch(stmts[0], 1) || LeavesSwitchBeforeExit(stmts[1..]))
  }

  predicate AnyClauseLeavesSwitchBeforeExit(clauses: seq<Clause>)
    decreases clauses
  {
    clauses != [] && (LeavesSwitchBeforeExit(clauses[0].body) || AnyClauseLeavesSwitchBeforeExit(clauses[1..]))
  }

  predicate StmtGuaranteesFunctionExit(s: Stmt)
    decreases s
  {
    match s
    case Synthetic(body) => BlockGuaranteesFunctionExit(body)
    case NamespaceBlock(_, body) => BlockGuaranteesFunctionExit(body)
    case Return(_) => true
    case Throw(_) => true
    case ExprStmt(e) => ExprGuaranteesFunctionExit(e)
    case If(_, thenBody, elseifs, elseBody) =>
      && elseBody.Body? && BlockGuaranteesFunctionExit(elseBody.stmts)
      && BlockGuaranteesFunctionExit(thenBody)
      && AllClausesGuaranteeFunctionExit(elseifs)
    case IfDef(thenBody, elseBody) =>
      && BlockGuaranteesFunctionExit(thenBody)
      && elseBody.Body? && BlockGuaranteesFunctionExit(elseBody.stmts)
    case Try(tryBody, catches, finallyBody) =>
      || (finallyBody.Body? && BlockGuaranteesFunctionExit(finallyBody.stmts))
      || (BlockGuaranteesFunctionExit(tryBody) && AllClausesGuaranteeFunctionExit(catches))
    case Switch(_, cases, default) =>
      && !AnyClauseLeavesSwitchBeforeExit(cases)
      && !(default.Body? && LeavesSwitchBeforeExit(default.stmts))
      && StmtTerminalEffect(s) == ExitsCurrentBlock
    case While(cond, body) => ExprIsTruthyLiteral(cond) && !BlockMayBreakCurrentLoop(body)
    case DoWhile(body, cond) =>
      || BlockGuaranteesFunctionExit(body)
      || (ExprIsTruthyLiteral(cond) && !BlockMayBreakCurrentLoop(body))
    case For(_, test, _, body) =>
      (test.None? || ExprIsTruthyLiteral(test.value)) && !BlockMayBreakCurrentLoop(body)
    case _ => false
  }

  /** The early-return scan over an arm answers whether some jump precedes every
      exit-guaranteeing statement. */
  method BlockMayLeaveCurrentSwitchBeforeFunctionExit(stmts: Block) returns (leaves: bool)
    ensures leaves <==> exists i :: 0 <= i < |stmts| && StmtMayLeaveCurrentSwitch(stmts[i], 1)
                                && forall j :: 0 <= j <= i ==> !StmtGuaranteesFunctionExit(stmts[j])
    ensures leaves == LeavesSwitchBeforeExit(stmts)
  {
    for i := 0 to |stmts|
      invariant forall j :: 0 <= j < i ==>
                  !StmtGuaranteesFunctionExit(stmts[j]) && !StmtMayLeaveCurrentSwitch(stmts[j], 1)
      invariant LeavesSwitchBeforeExit(stmts) == LeavesSwitchBeforeExit(stmts[i..])
    {
      assert stmts[i..][0] == stmts[i] && stmts[i..][1..] == stmts[i + 1..];
      if StmtGuaranteesFunctionExit(stmts[i]) {
        return false;
      }
      if StmtMayLeaveCurrentSwitch(stmts[i], 1) {
        return true;
      }
    }
    return false;
  }
}
