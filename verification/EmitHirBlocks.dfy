/** Basic blocks of the emitted code: each should have one terminator, at its end. */
module EmitHirBlocks {
  import opened Wrappers
  import opened Hir
  import opened Mlir
  import opened EmitHir
  import opened EmitHirValues
  import opened EmitHirSimulation
  import opened EmitHirExactness

  /** Reads code from inside a block (`open`) or behind a terminator: None where an instruction follows
      a terminator or a label follows none, otherwise whether the last block is still open. */
  function Flow(code: Code, open: bool): Option<bool> {
    if code == [] then Some(open)
    else if code[0].LabelDef? then (if open then None else Flow(code[1..], true))
    else if !open then None
    else Flow(code[1..], !code[0].Terminator())
  }

  lemma {:induction false} FlowConcat(a: Code, b: Code, open: bool)
    ensures Flow(a + b, open) == match Flow(a, open) case None => None case Some(o) => Flow(b, o)
  {
    if a == [] {
      assert a + b == b;
    } else {
      assert (a + b)[1..] == a[1..] + b;
      FlowConcat(a[1..], b, if a[0].LabelDef? then true else !a[0].Terminator());
    }
  }

  lemma FlowOne(ins: Instr, open: bool)
    ensures Flow([ins], open)
            == if ins.LabelDef? then (if open then None else Some(true))
               else if !open then None else Some(!ins.Terminator())
  {
    assert [ins][1..] == [];
  }

  lemma {:induction false} FlowStraight(code: Code)
    requires Straight(code)
    ensures Flow(code, true) == Some(true)
  {
    if code != [] {
      FlowStraight(code[1..]);
    }
  }

  // The fragment: conditions, returned and bound values are value expressions. An `else` that is no
  // block and a trailing value, which are not emitted, may be anything.

  predicate HandledExpr(structName: string, e: Expr, inLoop: bool)
    decreases e
  {
    match e
    case If(cond, thenBranch, elseBranch) =>
      && ValueExpr(structName, cond)
      && HandledStmts(structName, thenBranch.stmts, inLoop)
      && (elseBranch.Some? && elseBranch.value.BlockExpr?
          ==> HandledStmts(structName, elseBranch.value.block.stmts, inLoop))
    case BlockExpr(block) => HandledStmts(structName, block.stmts, inLoop)
    case Requires(_) => true
    case Ensures(_) => true
    case _ => ValueExpr(structName, e)
  }

  predicate HandledStmts(structName: string, stmts: seq<Stmt>, inLoop: bool)
    decreases stmts
  {
    stmts == [] || (HandledStmt(structName, stmts[0], inLoop) && HandledStmts(structName, stmts[1..], inLoop))
  }

  predicate HandledStmt(structName: string, s: Stmt, inLoop: bool)
    decreases s
  {
    match s
    case Assume(_) => true
    case ExprStmt(e) => HandledExpr(structName, e, inLoop)
    case Let(init) => init.Some? ==> ValueExpr(structName, init.value)
    case Return(result) => result.Some? ==> ValueExpr(structName, result.value)
    case Loop(body) => HandledStmts(structName, body.stmts, true)
    case While(cond, body) => ValueExpr(structName, cond) && HandledStmts(structName, body.stmts, true)
    case Break => inLoop
    case Continue => inLoop
    case For => false
  }

  // What the source says about the blocks of its code.

  /** Nothing is emitted for it. */
  predicate Silent(e: Expr)
    decreases e
  {
    match e
    case Var(_) => true
    case Requires(_) => true
    case Ensures(_) => true
    case BlockExpr(block) => AllSilent(block.stmts)
    case _ => false
  }

  predicate AllSilent(stmts: seq<Stmt>)
    decreases stmts
  {
    stmts == [] || (SilentStmt(stmts[0]) && AllSilent(stmts[1..]))
  }

  predicate SilentStmt(s: Stmt)
    decreases s
  {
    match s
    case Assume(_) => true
    case ExprStmt(e) => Silent(e)
    case Let(init) => init.Some? ==> Silent(init.value)
    case _ => false
  }

  predicate EndsHere(s: Stmt) {
    s.Return? || s.Break? || s.Continue?
  }

  /** A statement behind which nothing of its block is emitted. */
  predicate EndsEarly(stmts: seq<Stmt>) {
    stmts != [] && (EndsHere(stmts[0]) || EndsEarly(stmts[1..]))
  }

  /** A terminator is the last that is emitted: also that of a bare block, which the emitter forgets. */
  predicate Closes(stmts: seq<Stmt>)
    decreases stmts
  {
    stmts != [] && (ClosesHere(stmts[0]) || Closes(stmts[1..]))
  }

  predicate ClosesHere(s: Stmt)
    decreases s
  {
    EndsHere(s) || (s.ExprStmt? && s.e.BlockExpr? && Closes(s.e.block.stmts))
  }

  /** Nothing that is emitted follows a bare block that has closed, no arm is closed by one, and no `else`
      is anything but a block. */
  predicate Tidy(stmts: seq<Stmt>)
    decreases stmts, 0
  {
    stmts == []
    || (TidyStmt(stmts[0])
        && (EndsHere(stmts[0]) || if ClosesHere(stmts[0]) then AllSilent(stmts[1..]) else Tidy(stmts[1..])))
  }

  predicate TidyStmt(s: Stmt)
    decreases s, 0
  {
    match s
    case ExprStmt(e) => TidyExpr(e)
    case Loop(body) => TidyArm(body)
    case While(_, body) => TidyArm(body)
    case _ => true
  }

  predicate TidyExpr(e: Expr)
    decreases e, 0
  {
    match e
    case If(_, thenBranch, elseBranch) =>
      TidyArm(thenBranch)
      && (elseBranch.Some? ==> elseBranch.value.BlockExpr? && TidyArm(elseBranch.value.block))
    case BlockExpr(block) => Tidy(block.stmts)
    case _ => true
  }

  predicate TidyArm(block: Block)
    decreases block, 1
  {
    Tidy(block.stmts) && (Closes(block.stmts) ==> EndsEarly(block.stmts))
  }

  // Code that is empty, and how other code starts.

  /** Empty exactly for a silent source, and otherwise it does not start with a label. */
  predicate Begins(code: Code, silent: bool) {
    if silent then code == [] else code != [] && !code[0].LabelDef?
  }

  lemma BeginsClosed(code: Code, silent: bool)
    requires Begins(code, silent)
    ensures Flow(code, false) == if silent then Some(false) else None
  {
  }

  lemma BeginsConcat(a: Code, b: Code, first: bool, second: bool)
    requires Begins(a, first) && Begins(b, second)
    ensures Begins(a + b, first && second)
  {
  }

  lemma ValueBegins(sc: Scope, c: nat, e: Expr)
    requires ValueExpr(sc.structName, e) && LowerExpr(sc, c, e).Done?
    ensures Begins(LowerExpr(sc, c, e).value.code, e.Var?)
  {
    var code := LowerExpr(sc, c, e).value.code;
    ExprIsStraight(sc, c, e);
    assert code != [] ==> !code[0].LabelDef?;
    hide LowerExpr, Straight;
    match e {
      case Binary(_, _, _) => BinaryPiece(sc, c, e);
      case Unary(_, _) => UnaryPiece(sc, c, e);
      case Field(_, _, _) => FieldPiece(sc, c, e);
      case Assign(_, _) => AssignPiece(sc, c, e);
      case PollReady(Some(_)) => ReadyPiece(sc, c, e);
      case _ => LeafBegins(sc, c, e);
    }
  }

  lemma LeafBegins(sc: Scope, c: nat, e: Expr)
    requires e.IntLit? || e.BoolLit? || e.Var? || e.PollPending? || e == PollReady(None)
    ensures LowerExpr(sc, c, e).Done? && (LowerExpr(sc, c, e).value.code == [] <==> e.Var?)
  {
  }

  lemma {:induction false} ExprBegins(sc: Scope, c: nat, e: Expr, inLoop: bool)
    requires HandledExpr(sc.structName, e, inLoop) && LowerExpr(sc, c, e).Done?
    requires Targeted(sc, inLoop)
    ensures Begins(LowerExpr(sc, c, e).value.code, Silent(e))
    decreases e, 1
  {
    hide LowerIf, LowerStmts, HandledStmts, AllSilent, ValueExpr;
    match e {
      case If(_, _, _) =>
        IfPiece(sc, c, e);
        var p := LowerExpr(sc, c, e.cond).value;
        ValueBegins(sc, c, e.cond);
        IfBegins(sc, p.next, p.reg, e);
        BeginsConcat(p.code, LowerIf(sc, p.next, p.reg, e).value.code, e.cond.Var?, false);
      case BlockExpr(block) =>
        StmtsBegin(sc, c, block.stmts, inLoop);
      case Requires(_) =>
      case Ensures(_) =>
      case _ =>
        ValueBegins(sc, c, e);
        NotSilent(sc.structName, e);
    }
  }

  lemma NotSilent(structName: string, e: Expr)
    requires ValueExpr(structName, e)
    ensures Silent(e) <==> e.Var?
  {
  }

  lemma IfBegins(sc: Scope, id: nat, cond: Reg, e: Expr)
    requires e.If? && LowerIf(sc, id, cond, e).Done?
    ensures Begins(LowerIf(sc, id, cond, e).value.code, false)
  {
    hide LowerArm;
  }

  lemma {:induction false} StmtsBegin(sc: Scope, c: nat, stmts: seq<Stmt>, inLoop: bool)
    requires HandledStmts(sc.structName, stmts, inLoop) && LowerStmts(sc, c, stmts).Done?
    requires Targeted(sc, inLoop)
    ensures Begins(LowerStmts(sc, c, stmts).value.code, AllSilent(stmts))
    decreases stmts, 0
  {
    hide LowerStmt, HandledStmt, SilentStmt, Begins;
    if stmts == [] {
      NothingBegins();
    } else {
      StmtBegins(sc, c, stmts[0], inLoop);
      var p := LowerStmt(sc, c, stmts[0]).value;
      if p.ends {
        EndsAreLoud(sc, c, stmts[0]);
      } else {
        StmtsBegin(sc, p.next, stmts[1..], inLoop);
        BeginsConcat(p.code, LowerStmts(sc, p.next, stmts[1..]).value.code, SilentStmt(stmts[0]),
                     AllSilent(stmts[1..]));
      }
    }
  }

  lemma NothingBegins()
    ensures Begins([], true)
  {
  }

  lemma EndsAreLoud(sc: Scope, c: nat, s: Stmt)
    requires LowerStmt(sc, c, s).Done?
    ensures LowerStmt(sc, c, s).value.ends <==> EndsHere(s)
    ensures EndsHere(s) ==> !SilentStmt(s)
  {
    hide LowerExpr, LowerArm;
  }

  lemma {:induction false} StmtBegins(sc: Scope, c: nat, s: Stmt, inLoop: bool)
    requires HandledStmt(sc.structName, s, inLoop) && LowerStmt(sc, c, s).Done?
    requires Targeted(sc, inLoop)
    ensures Begins(LowerStmt(sc, c, s).value.code, SilentStmt(s))
    decreases s, 2
  {
    hide LowerExpr, LowerArm, HandledStmts, HandledExpr, Silent, ValueExpr;
    match s {
      case ExprStmt(e) =>
        ExprBegins(sc, c, e, inLoop);
      case Let(Some(e)) =>
        ValueBegins(sc, c, e);
        NotSilent(sc.structName, e);
      case Return(Some(e)) =>
        ValueBegins(sc, c, e);
        BeginsConcat(LowerExpr(sc, c, e).value.code, [Ret(Some(LowerExpr(sc, c, e).value.reg))], e.Var?, false);
      case _ =>
    }
  }

  predicate Targeted(sc: Scope, inLoop: bool) {
    inLoop ==> sc.breaks != [] && sc.continues != []
  }

  // The blocks, exactly.

  /** What reading a source's code from inside a block comes to. */
  function Verdict(tidy: bool, closes: bool): Option<bool> {
    if tidy then Some(!closes) else None
  }

  lemma {:induction false} FlowStmts(sc: Scope, c: nat, stmts: seq<Stmt>, inLoop: bool)
    requires HandledStmts(sc.structName, stmts, inLoop) && Targeted(sc, inLoop) && LowerStmts(sc, c, stmts).Done?
    ensures var p := LowerStmts(sc, c, stmts).value;
            Flow(p.code, true) == Verdict(Tidy(stmts), Closes(stmts)) && (p.ends <==> EndsEarly(stmts))
    decreases stmts, 0
  {
    hide Flow, LowerStmt, HandledStmt, TidyStmt, ClosesHere, SilentStmt, Begins;
    if stmts == [] {
      FlowNothing(true);
    } else {
      var rest := stmts[1..];
      FlowStmt(sc, c, stmts[0], inLoop);
      EndsAreLoud(sc, c, stmts[0]);
      EndsClose(stmts[0]);
      var p := LowerStmt(sc, c, stmts[0]).value;
      if !p.ends {
        var q := LowerStmts(sc, p.next, rest).value;
        FlowStmts(sc, p.next, rest, inLoop);
        StmtsBegin(sc, p.next, rest, inLoop);
        BeginsClosed(q.code, AllSilent(rest));
        FlowConcat(p.code, q.code, true);
      }
    }
  }

  lemma EndsClose(s: Stmt)
    ensures EndsHere(s) ==> ClosesHere(s) && TidyStmt(s)
  {
  }

  lemma {:induction false} FlowArm(sc: Scope, c: nat, block: Block, name: Label, after: Label, inLoop: bool)
    requires HandledStmts(sc.structName, block.stmts, inLoop) && Targeted(sc, inLoop)
    requires LowerArm(sc, c, block, name, after).Done?
    ensures Flow(LowerArm(sc, c, block, name, after).value.code, false) == Verdict(TidyArm(block), true)
    decreases block, 1
  {
    hide Flow, LowerStmts, HandledStmts, Tidy, Closes, EndsEarly;
    FlowStmts(sc, c, block.stmts, inLoop);
    EarlyCloses(block.stmts);
    var p := LowerStmts(sc, c, block.stmts).value;
    var close: Code := if p.ends then [] else [Br(after)];
    FlowOne(LabelDef(name), false);
    FlowConcat([LabelDef(name)], p.code, false);
    FlowConcat([LabelDef(name)] + p.code, close, false);
    FlowOne(Br(after), true);
    FlowOne(Br(after), false);
    FlowNothing(true);
    FlowNothing(false);
  }

  lemma {:induction false} EarlyCloses(stmts: seq<Stmt>)
    ensures EndsEarly(stmts) ==> Closes(stmts)
  {
    if stmts != [] {
      EarlyCloses(stmts[1..]);
    }
  }

  lemma {:induction false} FlowStmt(sc: Scope, c: nat, s: Stmt, inLoop: bool)
    requires HandledStmt(sc.structName, s, inLoop) && Targeted(sc, inLoop) && LowerStmt(sc, c, s).Done?
    ensures Flow(LowerStmt(sc, c, s).value.code, true) == Verdict(TidyStmt(s), ClosesHere(s))
    decreases s, 2
  {
    hide Flow, LowerExpr, LowerArm, HandledStmts, HandledExpr, Tidy, TidyExpr, TidyArm, Closes;
    match s {
      case ExprStmt(e) =>
        FlowEffect(sc, c, e, inLoop);
      case Let(Some(e)) =>
        FlowValue(sc, c, e);
      case Return(Some(e)) =>
        var p := LowerExpr(sc, c, e).value;
        FlowValue(sc, c, e);
        FlowOne(Ret(Some(p.reg)), true);
        FlowConcat(p.code, [Ret(Some(p.reg))], true);
      case Return(None) =>
        FlowOne(Ret(None), true);
      case Loop(body) =>
        FlowLoop(sc, c, s, inLoop);
      case While(cond, body) =>
        FlowWhile(sc, c, s, inLoop);
      case Break =>
        FlowOne(Br(sc.breaks[|sc.breaks| - 1]), true);
      case Continue =>
        FlowOne(Br(sc.continues[|sc.continues| - 1]), true);
      case _ =>
        FlowNothing(true);
    }
  }

  lemma {:induction false} FlowLoop(sc: Scope, c: nat, s: Stmt, inLoop: bool)
    requires s.Loop? && HandledStmt(sc.structName, s, inLoop) && Targeted(sc, inLoop) && LowerStmt(sc, c, s).Done?
    ensures Flow(LowerStmt(sc, c, s).value.code, true) == Verdict(TidyArm(s.body), false)
    decreases s, 0
  {
    hide Flow, LowerArm, HandledStmts, TidyArm;
    var header, exit := Label(LoopHeader, c), Label(LoopExit, c + 1);
    var b := LoopCode(sc, c, s);
    FlowArm(Enter(sc, exit, header), c + 2, s.body, header, header, true);
    FlowOne(Br(header), true);
    FlowOne(LabelDef(exit), false);
    FlowConcat([Br(header)], b.code, true);
    FlowConcat([Br(header)] + b.code, [LabelDef(exit)], true);
  }

  lemma {:induction false} FlowWhile(sc: Scope, c: nat, s: Stmt, inLoop: bool)
    requires s.While? && HandledStmt(sc.structName, s, inLoop) && Targeted(sc, inLoop) && LowerStmt(sc, c, s).Done?
    ensures Flow(LowerStmt(sc, c, s).value.code, true) == Verdict(TidyArm(s.body), false)
    decreases s, 0
  {
    hide Flow, LowerExpr, LowerArm, HandledStmts, TidyArm;
    var header, enter, exit := Label(WhileHeader, c), Label(WhileBody, c + 1), Label(WhileExit, c + 2);
    var p := LowerExpr(sc, c + 3, s.cond).value;
    var b := LowerArm(Enter(sc, exit, header), p.next, s.body, enter, header).value;
    var test := CondBr(p.reg, enter, exit);
    FlowValue(sc, c + 3, s.cond);
    FlowArm(Enter(sc, exit, header), p.next, s.body, enter, header, true);
    FlowOne(Br(header), true);
    FlowOne(LabelDef(header), false);
    FlowConcat([Br(header)], [LabelDef(header)], true);
    assert [Br(header)] + [LabelDef(header)] == [Br(header), LabelDef(header)];
    var front := [Br(header), LabelDef(header)];
    FlowConcat(front, p.code, true);
    FlowOne(test, true);
    FlowConcat(front + p.code, [test], true);
    FlowConcat(front + p.code + [test], b.code, true);
    FlowOne(LabelDef(exit), false);
    FlowConcat(front + p.code + [test] + b.code, [LabelDef(exit)], true);
  }

  lemma {:induction false} FlowEffect(sc: Scope, c: nat, e: Expr, inLoop: bool)
    requires HandledExpr(sc.structName, e, inLoop) && Targeted(sc, inLoop) && LowerExpr(sc, c, e).Done?
    ensures Flow(LowerExpr(sc, c, e).value.code, true)
            == Verdict(TidyExpr(e), e.BlockExpr? && Closes(e.block.stmts))
    decreases e, 1
  {
    hide Flow, LowerIf, LowerStmts, HandledStmts, Tidy, TidyArm, Closes;
    match e {
      case If(_, _, _) =>
        FlowIf(sc, c, e, inLoop);
      case BlockExpr(block) =>
        FlowStmts(sc, c, block.stmts, inLoop);
      case Requires(_) =>
        FlowNothing(true);
      case Ensures(_) =>
        FlowNothing(true);
      case _ =>
        FlowValue(sc, c, e);
    }
  }

  lemma FlowValue(sc: Scope, c: nat, e: Expr)
    requires ValueExpr(sc.structName, e) && LowerExpr(sc, c, e).Done?
    ensures Flow(LowerExpr(sc, c, e).value.code, true) == Some(true)
  {
    hide Flow, LowerExpr;
    ExprIsStraight(sc, c, e);
    FlowStraight(LowerExpr(sc, c, e).value.code);
  }

  lemma {:induction false} FlowIf(sc: Scope, c: nat, e: Expr, inLoop: bool)
    requires e.If? && HandledExpr(sc.structName, e, inLoop) && Targeted(sc, inLoop) && LowerExpr(sc, c, e).Done?
    ensures Flow(LowerExpr(sc, c, e).value.code, true) == Verdict(TidyExpr(e), false)
    decreases e, 0
  {
    hide Flow, LowerExpr, LowerIf, LowerArm, HandledStmts, TidyArm, ValueExpr;
    IfPiece(sc, c, e);
    var p := LowerExpr(sc, c, e.cond).value;
    var q := LowerIf(sc, p.next, p.reg, e).value;
    FlowValue(sc, c, e.cond);
    FlowConcat(p.code, q.code, true);
    var onTrue, onFalse, merge := Label(ThenBlock, p.next), Label(ElseBlock, p.next), Label(MergeBlock, p.next);
    var t, other := IfParts(sc, p.next, p.reg, e);
    var split := CondBr(p.reg, onTrue, if e.elseBranch.Some? then onFalse else merge);
    FlowOne(split, true);
    FlowArm(sc, p.next + 1, e.thenBranch, onTrue, merge, inLoop);
    FlowConcat([split], t.code, true);
    if e.elseBranch.None? {
      FlowNothing(false);
    } else if e.elseBranch.value.BlockExpr? {
      FlowArm(sc, t.next, e.elseBranch.value.block, onFalse, merge, inLoop);
    } else {
      FlowOne(LabelDef(onFalse), false);
    }
    FlowConcat([split] + t.code, other, true);
    FlowOne(LabelDef(merge), false);
    FlowOne(LabelDef(merge), true);
    FlowConcat([split] + t.code + other, [LabelDef(merge)], true);
  }

  /** The code of both arms, whatever the `else` is. */
  lemma IfParts(sc: Scope, id: nat, cond: Reg, e: Expr) returns (t: Piece, other: Code)
    requires e.If? && LowerIf(sc, id, cond, e).Done?
    ensures var (onTrue, onFalse, merge) := (Label(ThenBlock, id), Label(ElseBlock, id), Label(MergeBlock, id));
            && LowerArm(sc, id + 1, e.thenBranch, onTrue, merge) == Done(t)
            && (match e.elseBranch
                case None => other == []
                case Some(BlockExpr(block)) =>
                  var f := LowerArm(sc, t.next, block, onFalse, merge);
                  f.Done? && other == f.value.code
                case Some(_) => other == [LabelDef(onFalse)])
            && LowerIf(sc, id, cond, e).value.code
               == [CondBr(cond, onTrue, if e.elseBranch.Some? then onFalse else merge)]
                  + t.code + other + [LabelDef(merge)]
  {
    hide LowerArm;
    var onTrue, onFalse, merge := Label(ThenBlock, id), Label(ElseBlock, id), Label(MergeBlock, id);
    t := LowerArm(sc, id + 1, e.thenBranch, onTrue, merge).value;
    other := [];
    if e.elseBranch.Some? {
      other := if e.elseBranch.value.BlockExpr?
               then LowerArm(sc, t.next, e.elseBranch.value.block, onFalse, merge).value.code
               else [LabelDef(onFalse)];
    }
    var front := [CondBr(cond, onTrue, if e.elseBranch.Some? then onFalse else merge)] + t.code;
    assert front + [] == front;
  }

  lemma FlowNothing(open: bool)
    ensures Flow([], open) == Some(open)
  {
  }

  /** No instruction of a function's code follows a terminator and no label follows anything else exactly
      when the body is tidy; then every block has its terminator exactly when the body closes, and
      otherwise the last one alone lacks it. */
  lemma BlocksAreClosed(sc: Scope, c: nat, body: Block)
    requires HandledStmts(sc.structName, body.stmts, false) && LowerStmts(sc, c, body.stmts).Done?
    ensures Flow(LowerStmts(sc, c, body.stmts).value.code, true).Some? <==> Tidy(body.stmts)
    ensures Flow(LowerStmts(sc, c, body.stmts).value.code, true) == Some(false)
            <==> Tidy(body.stmts) && Closes(body.stmts)
  {
    hide Flow, LowerStmts, HandledStmts, Tidy, Closes;
    FlowStmts(sc, c, body.stmts, false);
  }

  /** A bare block that has closed is forgotten to have: what is emitted next follows a terminator, be it
      what stands behind the block, or the branch that leaves an arm or goes round a loop. */
  lemma BareBlockLeavesCodeBehind(sc: Scope, c: nat, block: Block, rest: seq<Stmt>, inLoop: bool, name: Label,
                                  after: Label)
    requires var stmts := [ExprStmt(BlockExpr(block))] + rest;
             && HandledStmts(sc.structName, stmts, inLoop) && Targeted(sc, inLoop)
             && LowerStmts(sc, c, stmts).Done? && Closes(block.stmts)
    ensures var stmts := [ExprStmt(BlockExpr(block))] + rest;
            && (!AllSilent(rest) ==> Flow(LowerStmts(sc, c, stmts).value.code, true) == None)
            && (AllSilent(rest) ==> Flow(LowerArm(sc, c, Block(stmts, None), name, after).value.code, false) == None)
  {
    hide Flow, LowerStmts, HandledStmts, Closes, EndsEarly, Tidy, AllSilent;
    var stmts := [ExprStmt(BlockExpr(block))] + rest;
    FlowStmts(sc, c, stmts, inLoop);
    FlowArm(sc, c, Block(stmts, None), name, after, inLoop);
    BareBlockFirst(block, rest);
  }

  lemma BareBlockFirst(block: Block, rest: seq<Stmt>)
    requires Closes(block.stmts)
    ensures var stmts := [ExprStmt(BlockExpr(block))] + rest;
            && Closes(stmts) && (Tidy(stmts) ==> AllSilent(rest)) && (AllSilent(rest) ==> !EndsEarly(stmts))
  {
    var stmts := [ExprStmt(BlockExpr(block))] + rest;
    assert stmts[1..] == rest;
    SilentGoOn(rest);
  }

  lemma SilentGoesOn(s: Stmt)
    ensures EndsHere(s) ==> !SilentStmt(s)
  {
  }

  lemma {:induction false} SilentGoOn(stmts: seq<Stmt>)
    ensures AllSilent(stmts) ==> !EndsEarly(stmts)
  {
    if stmts != [] {
      SilentGoesOn(stmts[0]);
      SilentGoOn(stmts[1..]);
    }
  }
}
