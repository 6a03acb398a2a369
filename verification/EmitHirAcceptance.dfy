/** Which trees the emitter accepts. */
module EmitHirAcceptance {
  import opened Wrappers
  import opened Hir
  import opened Mlir
  import opened EmitHir
  import opened EmitHirValues
  import opened EmitHirSimulation

  // No `yield` and no `for` in any place that is emitted.

  predicate AcceptedExpr(e: Expr)
    decreases e
  {
    match e
    case Binary(_, lhs, rhs) => AcceptedExpr(lhs) && AcceptedExpr(rhs)
    case Unary(_, inner) => AcceptedExpr(inner)
    case Field(base, _, _) => AcceptedExpr(base)
    case Assign(target, rhs) => AcceptedExpr(rhs) && (target.Field? ==> AcceptedExpr(target.base))
    case If(cond, thenBranch, elseBranch) =>
      && AcceptedExpr(cond) && AcceptedStmts(thenBranch.stmts)
      && (elseBranch.Some? && elseBranch.value.BlockExpr? ==> AcceptedStmts(elseBranch.value.block.stmts))
    case BlockExpr(block) => AcceptedStmts(block.stmts)
    case PollReady(Some(payload)) => AcceptedExpr(payload)
    case Yield => false
    case _ => true
  }

  /** What stands behind a return, a break or a continue is not emitted. */
  predicate AcceptedStmts(stmts: seq<Stmt>)
    decreases stmts
  {
    stmts == []
    || (AcceptedStmt(stmts[0])
        && (stmts[0].Return? || stmts[0].Break? || stmts[0].Continue? || AcceptedStmts(stmts[1..])))
  }

  predicate AcceptedStmt(s: Stmt)
    decreases s
  {
    match s
    case ExprStmt(e) => AcceptedExpr(e)
    case Let(Some(e)) => AcceptedExpr(e)
    case Return(Some(e)) => AcceptedExpr(e)
    case Loop(body) => AcceptedStmts(body.stmts)
    case While(cond, body) => AcceptedExpr(cond) && AcceptedStmts(body.stmts)
    case For => false
    case _ => true
  }

  lemma {:induction false} ExprIsLowered(sc: Scope, c: nat, e: Expr)
    ensures LowerExpr(sc, c, e).Done? <==> AcceptedExpr(e)
    decreases e, 2
  {
    hide LowerStmts, LowerArm, AcceptedStmts;
    match e {
      case Binary(_, lhs, rhs) =>
        ExprIsLowered(sc, c, lhs);
        if LowerExpr(sc, c, lhs).Done? {
          ExprIsLowered(sc, LowerExpr(sc, c, lhs).value.next, rhs);
        }
      case Unary(_, inner) =>
        ExprIsLowered(sc, c, inner);
      case Field(base, _, _) =>
        ExprIsLowered(sc, c, base);
      case Assign(target, rhs) =>
        ExprIsLowered(sc, c, rhs);
        if target.Field? && LowerExpr(sc, c, rhs).Done? {
          ExprIsLowered(sc, LowerExpr(sc, c, rhs).value.next + 1, target.base);
        }
      case If(cond, _, _) =>
        ExprIsLowered(sc, c, cond);
        if LowerExpr(sc, c, cond).Done? {
          var p := LowerExpr(sc, c, cond).value;
          IfIsLowered(sc, p.next, p.reg, e);
        }
      case BlockExpr(block) =>
        StmtsAreLowered(sc, c, block.stmts);
      case PollReady(Some(payload)) =>
        ExprIsLowered(sc, c + 1, payload);
      case _ =>
    }
  }

  lemma {:induction false} IfIsLowered(sc: Scope, id: nat, cond: Reg, e: Expr)
    requires e.If?
    ensures LowerIf(sc, id, cond, e).Done?
            <==> AcceptedStmts(e.thenBranch.stmts)
                 && (e.elseBranch.Some? && e.elseBranch.value.BlockExpr?
                     ==> AcceptedStmts(e.elseBranch.value.block.stmts))
    decreases e, 1
  {
    hide LowerArm, AcceptedStmts;
    var onTrue, onFalse, merge := Label(ThenBlock, id), Label(ElseBlock, id), Label(MergeBlock, id);
    ArmIsLowered(sc, id + 1, e.thenBranch, onTrue, merge);
    var t := LowerArm(sc, id + 1, e.thenBranch, onTrue, merge);
    if t.Done? && e.elseBranch.Some? && e.elseBranch.value.BlockExpr? {
      ArmIsLowered(sc, t.value.next, e.elseBranch.value.block, onFalse, merge);
    }
  }

  lemma {:induction false} ArmIsLowered(sc: Scope, c: nat, block: Block, name: Label, after: Label)
    ensures LowerArm(sc, c, block, name, after).Done? <==> AcceptedStmts(block.stmts)
    decreases block, 1
  {
    hide LowerStmts, AcceptedStmts;
    StmtsAreLowered(sc, c, block.stmts);
  }

  /** A block is lowered, and emitted without an error, exactly when it is accepted. */
  lemma {:induction false} StmtsAreLowered(sc: Scope, c: nat, stmts: seq<Stmt>)
    ensures LowerStmts(sc, c, stmts).Done? <==> AcceptedStmts(stmts)
    decreases stmts, 0
  {
    hide LowerStmt, AcceptedStmt;
    if stmts != [] {
      StmtIsLowered(sc, c, stmts[0]);
      var p := LowerStmt(sc, c, stmts[0]);
      if p.Done? {
        EndsAsWritten(sc, c, stmts[0]);
        if !p.value.ends {
          StmtsAreLowered(sc, p.value.next, stmts[1..]);
        }
      }
    }
  }

  lemma EndsAsWritten(sc: Scope, c: nat, s: Stmt)
    requires LowerStmt(sc, c, s).Done?
    ensures LowerStmt(sc, c, s).value.ends <==> s.Return? || s.Break? || s.Continue?
  {
    hide LowerExpr, LowerArm;
  }

  lemma {:induction false} StmtIsLowered(sc: Scope, c: nat, s: Stmt)
    ensures LowerStmt(sc, c, s).Done? <==> AcceptedStmt(s)
    decreases s, 3
  {
    hide LowerExpr, LowerArm, AcceptedExpr, AcceptedStmts;
    match s {
      case ExprStmt(e) =>
        ExprIsLowered(sc, c, e);
      case Let(Some(e)) =>
        ExprIsLowered(sc, c, e);
      case Return(Some(e)) =>
        ExprIsLowered(sc, c, e);
      case Loop(body) =>
        var header, exit := Label(LoopHeader, c), Label(LoopExit, c + 1);
        ArmIsLowered(Enter(sc, exit, header), c + 2, body, header, header);
      case While(cond, body) =>
        var header, enter, exit := Label(WhileHeader, c), Label(WhileBody, c + 1), Label(WhileExit, c + 2);
        ExprIsLowered(sc, c + 3, cond);
        if LowerExpr(sc, c + 3, cond).Done? {
          ArmIsLowered(Enter(sc, exit, header), LowerExpr(sc, c + 3, cond).value.next, body, enter, header);
        }
      case _ =>
    }
  }

  // Everything that the simulation is about is accepted.

  lemma {:induction false} ValueIsAccepted(structName: string, e: Expr)
    requires ValueExpr(structName, e)
    ensures AcceptedExpr(e)
  {
    match e
    case Binary(_, lhs, rhs) =>
      ValueIsAccepted(structName, lhs);
      ValueIsAccepted(structName, rhs);
    case Unary(_, inner) =>
      ValueIsAccepted(structName, inner);
    case Field(base, _, _) =>
      ValueIsAccepted(structName, base);
    case Assign(target, rhs) =>
      ValueIsAccepted(structName, target.base);
      ValueIsAccepted(structName, rhs);
    case PollReady(Some(payload)) =>
      ValueIsAccepted(structName, payload);
    case _ =>
  }

  lemma {:induction false} EmittableIsAccepted(structName: string, stmts: seq<Stmt>, inLoop: bool)
    requires EmittableStmts(structName, stmts, inLoop)
    ensures AcceptedStmts(stmts)
    decreases stmts
  {
    hide EmittableStmt, AcceptedStmt;
    if stmts != [] {
      EmittableStmtIsAccepted(structName, stmts[0], inLoop);
      EmittableIsAccepted(structName, stmts[1..], inLoop);
    }
  }

  lemma {:induction false} EmittableExprIsAccepted(structName: string, e: Expr, inLoop: bool)
    requires EmittableExpr(structName, e, inLoop)
    ensures AcceptedExpr(e)
    decreases e
  {
    hide EmittableStmts, AcceptedStmts;
    match e
    case If(cond, thenBranch, elseBranch) =>
      ValueIsAccepted(structName, cond);
      EmittableIsAccepted(structName, thenBranch.stmts, inLoop);
      if elseBranch.Some? {
        EmittableIsAccepted(structName, elseBranch.value.block.stmts, inLoop);
      }
    case BlockExpr(block) =>
      EmittableIsAccepted(structName, block.stmts, inLoop);
    case Requires(_) =>
    case Ensures(_) =>
    case _ =>
      ValueIsAccepted(structName, e);
  }

  lemma {:induction false} EmittableStmtIsAccepted(structName: string, s: Stmt, inLoop: bool)
    requires EmittableStmt(structName, s, inLoop)
    ensures AcceptedStmt(s)
    decreases s
  {
    hide EmittableStmts, AcceptedStmts, EmittableExpr, AcceptedExpr, ValueExpr;
    match s
    case ExprStmt(e) =>
      EmittableExprIsAccepted(structName, e, inLoop);
    case Let(Some(e)) =>
      ValueIsAccepted(structName, e);
    case Return(Some(e)) =>
      ValueIsAccepted(structName, e);
    case Loop(body) =>
      EmittableIsAccepted(structName, body.stmts, true);
    case While(cond, body) =>
      ValueIsAccepted(structName, cond);
      EmittableIsAccepted(structName, body.stmts, true);
    case _ =>
  }

  /** A session is emitted exactly when all its bodies are accepted. */
  lemma {:induction false} SessionIsEmitted(sc: Scope, c: nat, bodies: seq<Block>)
    ensures LowerFns(sc, c, bodies).Ok? <==> forall i :: 0 <= i < |bodies| ==> AcceptedStmts(bodies[i].stmts)
    decreases |bodies|
  {
    hide LowerStmts, AcceptedStmts;
    if bodies != [] {
      StmtsAreLowered(sc, c, bodies[0].stmts);
      var p := LowerStmts(sc, c, bodies[0].stmts);
      if p.Done? {
        SessionIsEmitted(sc, p.value.next, bodies[1..]);
        assert forall i :: 0 < i < |bodies| ==> bodies[i] == bodies[1..][i - 1];
        assert forall i :: 0 <= i < |bodies| - 1 ==> bodies[1..][i] == bodies[i + 1];
      }
    }
  }
}
