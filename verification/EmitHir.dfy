/** The emitter of salt-front/src/codegen/emit_hir.rs: structured HIR to labelled linear code.
    The Lower functions say what is appended for a tree; the Emit methods do it in place. */
module EmitHir {
  import opened Wrappers
  import opened Hir
  import opened Mlir

  /** What lowering reads: the registered struct and the label stacks of the enclosing loops. */
  datatype Scope = Scope(structName: string, fields: seq<string>, breaks: seq<Label>, continues: seq<Label>)

  /** The emitted code of a tree, the counter after it, the register holding its value, and
      whether a terminator ended it early. */
  datatype Piece = Piece(code: Code, next: nat, reg: Reg, ends: bool)

  datatype Lowering = Rejected | Done(value: Piece) {
    predicate IsFailure() {
      Rejected?
    }

    function PropagateFailure(): Lowering
      requires Rejected?
    {
      this
    }

    function Extract(): Piece
      requires Done?
    {
      value
    }
  }

  function Position(fields: seq<string>, f: string): (i: nat)
    ensures f in fields ==> i < |fields| && fields[i] == f
    ensures f !in fields ==> i == 0
  {
    if f !in fields then 0
    else if fields[0] == f then 0
    else
      assert fields == [fields[0]] + fields[1..];
      1 + Position(fields[1..], f)
  }

  /** The position found is the first one. */
  lemma {:induction false} PositionIsFirst(fields: seq<string>, f: string)
    requires f in fields
    ensures forall j :: 0 <= j < Position(fields, f) ==> fields[j] != f
  {
    if fields[0] != f {
      assert fields == [fields[0]] + fields[1..];
      PositionIsFirst(fields[1..], f);
    }
  }

  /** The struct index used for a field: by the struct's name when the base's type gives it,
      otherwise 0 for `__state` and a search of the registered struct for any other name. */
  function FieldIndex(structName: string, fields: seq<string>, baseType: BaseType, f: string): nat {
    match baseType
    case Named(name) => if name == structName then Position(fields, f) else 0
    case Untyped => if f == "__state" then 0 else Position(fields, f)
  }

  function Mnemonic(op: BinOp): ArithOp {
    match op
    case Add => AddI
    case Sub => SubI
    case Mul => MulI
    case Div => DivSI
    case Rem => RemSI
    case Eq => CmpEq
    case Ne => CmpNe
    case Lt => CmpSlt
    case Le => CmpSle
    case Gt => CmpSgt
    case Ge => CmpSge
    case And => AndI
    case Or => OrI
    case BitAnd => AndI
    case BitOr => OrI
    case BitXor => XorI
    case Shl => ShlI
    case Shr => ShrSI
  }

  function UnaryCode(op: UnOp, id: nat, r: Reg): Code {
    match op
    case Not => [Const(Tmp(TrueReg, id), Bool(true)), Arith(Tmp(UnReg, id), XorI, r, Tmp(TrueReg, id))]
    case Neg => [Const(Tmp(ZeroReg, id), Int(0)), Arith(Tmp(UnReg, id), SubI, Tmp(ZeroReg, id), r)]
    case Deref => [Load(Tmp(UnReg, id), r)]
  }

  function FieldCode(id: nat, base: Reg, index: nat): Code {
    [Gep(Tmp(FieldPtrReg, id), base, index), Load(Tmp(FieldReg, id), Tmp(FieldPtrReg, id))]
  }

  function StoreCode(id: nat, src: Reg, base: Reg, index: nat): Code {
    [Gep(Tmp(AssignPtrReg, id), base, index), Store(src, Tmp(AssignPtrReg, id))]
  }

  function PollCode(id: nat, disc: int, dst: RegKind): Code {
    [PollUndef(Tmp(PollUndefReg, id)), Const(Tmp(PollDiscReg, id), Int(disc)),
     InsertValue(Tmp(dst, id), Tmp(PollDiscReg, id), Tmp(PollUndefReg, id), 0)]
  }

  function LowerExpr(sc: Scope, c: nat, e: Expr): Lowering
    decreases e, 3
  {
    match e
    case IntLit(n) => Done(Piece([Const(Tmp(IntReg, c), Int(n))], c + 1, Tmp(IntReg, c), false))
    case BoolLit(b) => Done(Piece([Const(Tmp(BoolReg, c), Bool(b))], c + 1, Tmp(BoolReg, c), false))
    case Var(id) => Done(Piece([], c, Arg(id), false))
    case Binary(op, lhs, rhs) =>
      var l :- LowerExpr(sc, c, lhs);
      var r :- LowerExpr(sc, l.next, rhs);
      var dst := Tmp(BinReg, r.next);
      Done(Piece(l.code + r.code + [Arith(dst, Mnemonic(op), l.reg, r.reg)], r.next + 1, dst, false))
    case Unary(op, inner) =>
      var p :- LowerExpr(sc, c, inner);
      Done(Piece(p.code + UnaryCode(op, p.next, p.reg), p.next + 1, Tmp(UnReg, p.next), false))
    case Field(base, baseType, f) =>
      var p :- LowerExpr(sc, c, base);
      var index := FieldIndex(sc.structName, sc.fields, baseType, f);
      Done(Piece(p.code + FieldCode(p.next, p.reg, index), p.next + 1, Tmp(FieldReg, p.next), false))
    case Assign(target, rhs) => (
      var r :- LowerExpr(sc, c, rhs);
      match target
      case Field(base, baseType, f) =>
        var p :- LowerExpr(sc, r.next + 1, base);
        var index := FieldIndex(sc.structName, sc.fields, baseType, f);
        Done(Piece(r.code + p.code + StoreCode(r.next, r.reg, p.reg, index), p.next, r.reg, false))
      case _ => Done(r.(next := r.next + 1))
    )
    case If(cond, thenBranch, elseBranch) =>
      var p :- LowerExpr(sc, c, cond);
      var q :- LowerIf(sc, p.next, p.reg, e);
      Done(q.(code := p.code + q.code))
    case BlockExpr(block) =>
      var p :- LowerStmts(sc, c, block.stmts);
      Done(p.(reg := UnitReg, ends := false))
    case PollPending =>
      Done(Piece(PollCode(c, 0, PollPendingReg), c + 1, Tmp(PollPendingReg, c), false))
    case PollReady(None) =>
      Done(Piece(PollCode(c, 1, PollTaggedReg), c + 1, Tmp(PollTaggedReg, c), false))
    case PollReady(Some(payload)) =>
      var p :- LowerExpr(sc, c + 1, payload);
      var dst := Tmp(PollReadyReg, c);
      Done(Piece(PollCode(c, 1, PollTaggedReg) + p.code + [InsertValue(dst, p.reg, Tmp(PollTaggedReg, c), 1)],
               p.next, dst, false))
    case Requires(_) => Done(Piece([], c, UnitReg, false))
    case Ensures(_) => Done(Piece([], c, UnitReg, false))
    case Yield => Rejected
  }

  /** Both forms of `if`, given the register of the condition. Only a block is emitted for `else`. */
  function LowerIf(sc: Scope, id: nat, cond: Reg, e: Expr): Lowering
    requires e.If?
    decreases e, 0
  {
    var (onTrue, onFalse, merge) := (Label(ThenBlock, id), Label(ElseBlock, id), Label(MergeBlock, id));
    var t :- LowerArm(sc, id + 1, e.thenBranch, onTrue, merge);
    if e.elseBranch.None? then
      Done(Piece([CondBr(cond, onTrue, merge)] + t.code + [LabelDef(merge)], t.next, UnitReg, false))
    else if e.elseBranch.value.BlockExpr? then
      var f :- LowerArm(sc, t.next, e.elseBranch.value.block, onFalse, merge);
      Done(Piece([CondBr(cond, onTrue, onFalse)] + t.code + f.code + [LabelDef(merge)], f.next, UnitReg, false))
    else
      Done(Piece([CondBr(cond, onTrue, onFalse)] + t.code + [LabelDef(onFalse)] + [LabelDef(merge)],
               t.next, UnitReg, false))
  }

  /** A labelled block that branches to `after` unless it has ended by itself. */
  function LowerArm(sc: Scope, c: nat, block: Block, name: Label, after: Label): Lowering
    decreases block, 0
  {
    var p :- LowerStmts(sc, c, block.stmts);
    Done(p.(code := [LabelDef(name)] + p.code + (if p.ends then [] else [Br(after)])))
  }

  /** Statements up to the first that ends the block; what follows it is not emitted. */
  function LowerStmts(sc: Scope, c: nat, stmts: seq<Stmt>): Lowering
    decreases stmts, 0
  {
    if stmts == [] then Done(Piece([], c, UnitReg, false))
    else
      var p :- LowerStmt(sc, c, stmts[0]);
      if p.ends then Done(p)
      else
        var q :- LowerStmts(sc, p.next, stmts[1..]);
        Done(Piece(p.code + q.code, q.next, UnitReg, q.ends))
  }

  function Enter(sc: Scope, exit: Label, header: Label): Scope {
    sc.(breaks := sc.breaks + [exit], continues := sc.continues + [header])
  }

  function JumpOut(labels: seq<Label>): Code {
    if labels == [] then [] else [Br(labels[|labels| - 1])]
  }

  function LowerStmt(sc: Scope, c: nat, s: Stmt): Lowering
    decreases s, 0
  {
    match s
    case Assume(_) => Done(Piece([], c, UnitReg, false))
    case ExprStmt(e) =>
      var p :- LowerExpr(sc, c, e);
      Done(Piece(p.code, p.next, UnitReg, false))
    case Let(None) => Done(Piece([], c, UnitReg, false))
    case Let(Some(e)) =>
      var p :- LowerExpr(sc, c, e);
      Done(Piece(p.code, p.next, UnitReg, false))
    case Return(None) => Done(Piece([Ret(None)], c, UnitReg, true))
    case Return(Some(e)) =>
      var p :- LowerExpr(sc, c, e);
      Done(Piece(p.code + [Ret(Some(p.reg))], p.next, UnitReg, true))
    case Loop(body) =>
      var (header, exit) := (Label(LoopHeader, c), Label(LoopExit, c + 1));
      var b :- LowerArm(Enter(sc, exit, header), c + 2, body, header, header);
      Done(Piece([Br(header)] + b.code + [LabelDef(exit)], b.next, UnitReg, false))
    case While(cond, body) =>
      var (header, enter, exit) := (Label(WhileHeader, c), Label(WhileBody, c + 1), Label(WhileExit, c + 2));
      var p :- LowerExpr(sc, c + 3, cond);
      var b :- LowerArm(Enter(sc, exit, header), p.next, body, enter, header);
      Done(Piece([Br(header), LabelDef(header)] + p.code + [CondBr(p.reg, enter, exit)] + b.code + [LabelDef(exit)],
               b.next, UnitReg, false))
    case Break => Done(Piece(JumpOut(sc.breaks), c, UnitReg, true))
    case Continue => Done(Piece(JumpOut(sc.continues), c, UnitReg, true))
    case For => Rejected
  }

  // One level of LowerExpr at a time, for proofs that keep the rest of it out of sight.

  lemma BinaryPiece(sc: Scope, c: nat, e: Expr)
    requires e.Binary? && LowerExpr(sc, c, e).Done?
    ensures LowerExpr(sc, c, e.lhs).Done? && LowerExpr(sc, LowerExpr(sc, c, e.lhs).value.next, e.rhs).Done?
    ensures var l := LowerExpr(sc, c, e.lhs).value;
            var r := LowerExpr(sc, l.next, e.rhs).value;
            var dst := Tmp(BinReg, r.next);
            LowerExpr(sc, c, e).value
            == Piece(l.code + r.code + [Arith(dst, Mnemonic(e.op), l.reg, r.reg)], r.next + 1, dst, false)
  {
  }

  lemma UnaryPiece(sc: Scope, c: nat, e: Expr)
    requires e.Unary? && LowerExpr(sc, c, e).Done?
    ensures LowerExpr(sc, c, e.inner).Done?
    ensures var p := LowerExpr(sc, c, e.inner).value;
            LowerExpr(sc, c, e).value
            == Piece(p.code + UnaryCode(e.uop, p.next, p.reg), p.next + 1, Tmp(UnReg, p.next), false)
  {
  }

  lemma FieldPiece(sc: Scope, c: nat, e: Expr)
    requires e.Field? && LowerExpr(sc, c, e).Done?
    ensures LowerExpr(sc, c, e.base).Done?
    ensures var p := LowerExpr(sc, c, e.base).value;
            var index := FieldIndex(sc.structName, sc.fields, e.baseType, e.field);
            LowerExpr(sc, c, e).value
            == Piece(p.code + FieldCode(p.next, p.reg, index), p.next + 1, Tmp(FieldReg, p.next), false)
  {
  }

  lemma AssignPiece(sc: Scope, c: nat, e: Expr)
    requires e.Assign? && e.target.Field? && LowerExpr(sc, c, e).Done?
    ensures LowerExpr(sc, c, e.rhs).Done?
    ensures LowerExpr(sc, LowerExpr(sc, c, e.rhs).value.next + 1, e.target.base).Done?
    ensures var r := LowerExpr(sc, c, e.rhs).value;
            var p := LowerExpr(sc, r.next + 1, e.target.base).value;
            var index := FieldIndex(sc.structName, sc.fields, e.target.baseType, e.target.field);
            LowerExpr(sc, c, e).value
            == Piece(r.code + p.code + StoreCode(r.next, r.reg, p.reg, index), p.next, r.reg, false)
  {
  }

  lemma IfPiece(sc: Scope, c: nat, e: Expr)
    requires e.If? && LowerExpr(sc, c, e).Done?
    ensures LowerExpr(sc, c, e.cond).Done?
    ensures var p := LowerExpr(sc, c, e.cond).value;
            LowerIf(sc, p.next, p.reg, e).Done?
    ensures var p := LowerExpr(sc, c, e.cond).value;
            var q := LowerIf(sc, p.next, p.reg, e).value;
            LowerExpr(sc, c, e).value == Piece(p.code + q.code, q.next, UnitReg, false)
  {
  }

  lemma ReadyPiece(sc: Scope, c: nat, e: Expr)
    requires e.PollReady? && e.fields.Some? && LowerExpr(sc, c, e).Done?
    ensures LowerExpr(sc, c + 1, e.fields.value).Done?
    ensures var p := LowerExpr(sc, c + 1, e.fields.value).value;
            LowerExpr(sc, c, e).value
            == Piece(PollCode(c, 1, PollTaggedReg) + p.code
                     + [InsertValue(Tmp(PollReadyReg, c), p.reg, Tmp(PollTaggedReg, c), 1)],
                     p.next, Tmp(PollReadyReg, c), false)
  {
  }

  class Output {
    var code: Code

    constructor ()
      ensures code == []
    {
      code := [];
    }

    method Push(ins: Instr)
      modifies this
      ensures code == old(code) + [ins]
    {
      code := code + [ins];
    }
  }

  class HirEmitCtx {
    var counter: nat
    var breakLabels: seq<Label>
    var continueLabels: seq<Label>
    const structName: string
    const fields: seq<string>

    constructor (structName: string, fields: seq<string>)
      ensures counter == 0 && breakLabels == [] && continueLabels == []
      ensures this.structName == structName && this.fields == fields
    {
      counter, breakLabels, continueLabels := 0, [], [];
      this.structName, this.fields := structName, fields;
    }

    ghost function Labels(): Scope
      reads this
    {
      Scope(structName, fields, breakLabels, continueLabels)
    }

    method NextId() returns (id: nat)
      modifies `counter
      ensures id == old(counter) && counter == old(counter) + 1
    {
      id := counter;
      counter := counter + 1;
    }

    method PushLoop(exit: Label, header: Label)
      modifies `breakLabels, `continueLabels
      ensures Labels() == Enter(old(Labels()), exit, header)
    {
      breakLabels := breakLabels + [exit];
      continueLabels := continueLabels + [header];
    }

    method PopLoop()
      requires breakLabels != [] && continueLabels != []
      modifies `breakLabels, `continueLabels
      ensures breakLabels == old(breakLabels)[..|old(breakLabels)| - 1]
      ensures continueLabels == old(continueLabels)[..|old(continueLabels)| - 1]
    {
      breakLabels := breakLabels[..|breakLabels| - 1];
      continueLabels := continueLabels[..|continueLabels| - 1];
    }
  }

  /** A successful emission appends its piece, moves the counter on and leaves the label stacks as
      they were. */
  ghost predicate Appended(ctx: HirEmitCtx, out: Output, before: Code, sc: Scope, p: Piece)
    reads ctx, out
  {
    && out.code == before + p.code
    && ctx.counter == p.next
    && ctx.Labels() == sc
  }

  method EmitExpr(ctx: HirEmitCtx, out: Output, e: Expr) returns (r: Result<Reg>)
    modifies ctx, out
    ensures match LowerExpr(old(ctx.Labels()), old(ctx.counter), e)
            case Rejected => r.Err?
            case Done(p) => r == Ok(p.reg) && Appended(ctx, out, old(out.code), old(ctx.Labels()), p)
    decreases e, 3
  {
    match e {
      case IntLit(n) =>
        var id := ctx.NextId();
        out.Push(Const(Tmp(IntReg, id), Int(n)));
        return Ok(Tmp(IntReg, id));
      case BoolLit(b) =>
        var id := ctx.NextId();
        out.Push(Const(Tmp(BoolReg, id), Bool(b)));
        return Ok(Tmp(BoolReg, id));
      case Var(id) =>
        return Ok(Arg(id));
      case Binary(_, _, _) =>
        r := EmitBinary(ctx, out, e);
      case Unary(_, _) =>
        r := EmitUnary(ctx, out, e);
      case Field(_, _, _) =>
        r := EmitField(ctx, out, e);
      case Assign(_, _) =>
        r := EmitAssign(ctx, out, e);
      case If(_, _, _) =>
        r := EmitIf(ctx, out, e);
      case BlockExpr(block) =>
        var _ :- EmitBlock(ctx, out, block);
        return Ok(UnitReg);
      case PollPending =>
        r := EmitPoll(ctx, out, e);
      case PollReady(_) =>
        r := EmitPoll(ctx, out, e);
      case Requires(_) =>
        return Ok(UnitReg);
      case Ensures(_) =>
        return Ok(UnitReg);
      case Yield =>
        return Err;
    }
  }

  method EmitBinary(ctx: HirEmitCtx, out: Output, e: Expr) returns (r: Result<Reg>)
    requires e.Binary?
    modifies ctx, out
    ensures match LowerExpr(old(ctx.Labels()), old(ctx.counter), e)
            case Rejected => r.Err?
            case Done(p) => r == Ok(p.reg) && Appended(ctx, out, old(out.code), old(ctx.Labels()), p)
    decreases e, 0
  {
    hide LowerIf, LowerStmts, LowerStmt, LowerArm, FieldIndex, Mnemonic, UnaryCode, PollCode;
    var a :- EmitExpr(ctx, out, e.lhs);
    var b :- EmitExpr(ctx, out, e.rhs);
    var id := ctx.NextId();
    out.Push(Arith(Tmp(BinReg, id), Mnemonic(e.op), a, b));
    return Ok(Tmp(BinReg, id));
  }

  method EmitUnary(ctx: HirEmitCtx, out: Output, e: Expr) returns (r: Result<Reg>)
    requires e.Unary?
    modifies ctx, out
    ensures match LowerExpr(old(ctx.Labels()), old(ctx.counter), e)
            case Rejected => r.Err?
            case Done(p) => r == Ok(p.reg) && Appended(ctx, out, old(out.code), old(ctx.Labels()), p)
    decreases e, 0
  {
    hide LowerIf, LowerStmts, LowerStmt, LowerArm, FieldIndex, PollCode;
    var a :- EmitExpr(ctx, out, e.inner);
    var id := ctx.NextId();
    match e.uop {
      case Not =>
        out.Push(Const(Tmp(TrueReg, id), Bool(true)));
        out.Push(Arith(Tmp(UnReg, id), XorI, a, Tmp(TrueReg, id)));
      case Neg =>
        out.Push(Const(Tmp(ZeroReg, id), Int(0)));
        out.Push(Arith(Tmp(UnReg, id), SubI, Tmp(ZeroReg, id), a));
      case Deref =>
        out.Push(Load(Tmp(UnReg, id), a));
    }
    return Ok(Tmp(UnReg, id));
  }

  method EmitField(ctx: HirEmitCtx, out: Output, e: Expr) returns (r: Result<Reg>)
    requires e.Field?
    modifies ctx, out
    ensures match LowerExpr(old(ctx.Labels()), old(ctx.counter), e)
            case Rejected => r.Err?
            case Done(p) => r == Ok(p.reg) && Appended(ctx, out, old(out.code), old(ctx.Labels()), p)
    decreases e, 0
  {
    hide LowerIf, LowerStmts, LowerStmt, LowerArm, FieldIndex, UnaryCode, PollCode;
    var a :- EmitExpr(ctx, out, e.base);
    var id := ctx.NextId();
    var index := FieldIndex(ctx.structName, ctx.fields, e.baseType, e.field);
    out.Push(Gep(Tmp(FieldPtrReg, id), a, index));
    out.Push(Load(Tmp(FieldReg, id), Tmp(FieldPtrReg, id)));
    return Ok(Tmp(FieldReg, id));
  }

  method EmitAssign(ctx: HirEmitCtx, out: Output, e: Expr) returns (r: Result<Reg>)
    requires e.Assign?
    modifies ctx, out
    ensures match LowerExpr(old(ctx.Labels()), old(ctx.counter), e)
            case Rejected => r.Err?
            case Done(p) => r == Ok(p.reg) && Appended(ctx, out, old(out.code), old(ctx.Labels()), p)
    decreases e, 0
  {
    hide LowerIf, LowerStmts, LowerStmt, LowerArm, FieldIndex, UnaryCode, PollCode;
    ghost var start, sc, first := out.code, ctx.Labels(), LowerExpr(ctx.Labels(), ctx.counter, e.rhs);
    var v :- EmitExpr(ctx, out, e.rhs);
    var id := ctx.NextId();
    if e.target.Field? {
      ghost var second := LowerExpr(sc, ctx.counter, e.target.base);
      var a :- EmitExpr(ctx, out, e.target.base);
      var index := FieldIndex(ctx.structName, ctx.fields, e.target.baseType, e.target.field);
      assert out.code == start + (first.value.code + second.value.code);
      out.Push(Gep(Tmp(AssignPtrReg, id), a, index));
      out.Push(Store(v, Tmp(AssignPtrReg, id)));
      assert out.code == start + (first.value.code + second.value.code + StoreCode(id, v, a, index));
    }
    return Ok(v);
  }

  method EmitPoll(ctx: HirEmitCtx, out: Output, e: Expr) returns (r: Result<Reg>)
    requires e.PollPending? || e.PollReady?
    modifies ctx, out
    ensures match LowerExpr(old(ctx.Labels()), old(ctx.counter), e)
            case Rejected => r.Err?
            case Done(p) => r == Ok(p.reg) && Appended(ctx, out, old(out.code), old(ctx.Labels()), p)
    decreases e, 0
  {
    hide LowerIf, LowerStmts, LowerStmt, LowerArm, FieldIndex, UnaryCode;
    var id := ctx.NextId();
    out.Push(PollUndef(Tmp(PollUndefReg, id)));
    if e.PollPending? {
      out.Push(Const(Tmp(PollDiscReg, id), Int(0)));
      out.Push(InsertValue(Tmp(PollPendingReg, id), Tmp(PollDiscReg, id), Tmp(PollUndefReg, id), 0));
      return Ok(Tmp(PollPendingReg, id));
    }
    out.Push(Const(Tmp(PollDiscReg, id), Int(1)));
    out.Push(InsertValue(Tmp(PollTaggedReg, id), Tmp(PollDiscReg, id), Tmp(PollUndefReg, id), 0));
    if e.fields.None? {
      return Ok(Tmp(PollTaggedReg, id));
    }
    var v :- EmitExpr(ctx, out, e.fields.value);
    out.Push(InsertValue(Tmp(PollReadyReg, id), v, Tmp(PollTaggedReg, id), 1));
    return Ok(Tmp(PollReadyReg, id));
  }

  method EmitIf(ctx: HirEmitCtx, out: Output, e: Expr) returns (r: Result<Reg>)
    requires e.If?
    modifies ctx, out
    ensures match LowerExpr(old(ctx.Labels()), old(ctx.counter), e)
            case Rejected => r.Err?
            case Done(p) => r == Ok(p.reg) && Appended(ctx, out, old(out.code), old(ctx.Labels()), p)
    decreases e, 1
  {
    hide LowerIf, LowerStmts, LowerStmt, LowerArm, FieldIndex, UnaryCode, PollCode;
    var c :- EmitExpr(ctx, out, e.cond);
    r := EmitBranches(ctx, out, c, e);
  }

  method EmitBranches(ctx: HirEmitCtx, out: Output, cond: Reg, e: Expr) returns (r: Result<Reg>)
    requires e.If?
    modifies ctx, out
    ensures match LowerIf(old(ctx.Labels()), old(ctx.counter), cond, e)
            case Rejected => r.Err?
            case Done(p) => r == Ok(p.reg) && Appended(ctx, out, old(out.code), old(ctx.Labels()), p)
    decreases e, 0
  {
    hide LowerExpr, LowerStmts, LowerStmt, LowerArm;
    var id := ctx.NextId();
    var onTrue, onFalse, merge := Label(ThenBlock, id), Label(ElseBlock, id), Label(MergeBlock, id);
    ghost var start, sc := out.code, ctx.Labels();
    var split := CondBr(cond, onTrue, if e.elseBranch.Some? then onFalse else merge);
    out.Push(split);
    ghost var t := LowerArm(sc, ctx.counter, e.thenBranch, onTrue, merge);
    var _ :- EmitArm(ctx, out, e.thenBranch, onTrue, merge);
    assert out.code == start + ([split] + t.value.code);
    if e.elseBranch.Some? {
      if e.elseBranch.value.BlockExpr? {
        ghost var f := LowerArm(sc, ctx.counter, e.elseBranch.value.block, onFalse, merge);
        var _ :- EmitArm(ctx, out, e.elseBranch.value.block, onFalse, merge);
        assert out.code == start + ([split] + t.value.code + f.value.code);
      } else {
        out.Push(LabelDef(onFalse));
        assert out.code == start + ([split] + t.value.code + [LabelDef(onFalse)]);
      }
    }
    out.Push(LabelDef(merge));
    return Ok(UnitReg);
  }

  method EmitArm(ctx: HirEmitCtx, out: Output, block: Block, name: Label, after: Label) returns (r: Result<bool>)
    modifies ctx, out
    ensures match LowerArm(old(ctx.Labels()), old(ctx.counter), block, name, after)
            case Rejected => r.Err?
            case Done(p) => r == Ok(p.ends) && Appended(ctx, out, old(out.code), old(ctx.Labels()), p)
    decreases block, 1
  {
    hide LowerExpr, LowerStmts, LowerStmt, LowerIf;
    out.Push(LabelDef(name));
    var ends :- EmitBlock(ctx, out, block);
    if !ends {
      out.Push(Br(after));
    }
    return Ok(ends);
  }

  method EmitBlock(ctx: HirEmitCtx, out: Output, block: Block) returns (r: Result<bool>)
    modifies ctx, out
    ensures match LowerStmts(old(ctx.Labels()), old(ctx.counter), block.stmts)
            case Rejected => r.Err?
            case Done(p) => r == Ok(p.ends) && Appended(ctx, out, old(out.code), old(ctx.Labels()), p)
    decreases block, 0
  {
    hide LowerExpr, LowerStmt, LowerIf, LowerArm;
    ghost var sc := ctx.Labels();
    ghost var whole := LowerStmts(sc, ctx.counter, block.stmts);
    var i := 0;
    while i < |block.stmts|
      invariant 0 <= i <= |block.stmts|
      invariant ctx.Labels() == sc
      invariant match LowerStmts(sc, ctx.counter, block.stmts[i..])
                case Rejected => whole.Rejected?
                case Done(rest) =>
                  whole.Done? && whole.value.next == rest.next && whole.value.ends == rest.ends
                  && old(out.code) + whole.value.code == out.code + rest.code
    {
      assert block.stmts[i..][0] == block.stmts[i] && block.stmts[i..][1..] == block.stmts[i + 1..];
      var ends :- EmitStmt(ctx, out, block.stmts[i]);
      if ends {
        return Ok(true);
      }
      i := i + 1;
    }
    return Ok(false);
  }

  method EmitStmt(ctx: HirEmitCtx, out: Output, s: Stmt) returns (r: Result<bool>)
    modifies ctx, out
    ensures match LowerStmt(old(ctx.Labels()), old(ctx.counter), s)
            case Rejected => r.Err?
            case Done(p) => r == Ok(p.ends) && Appended(ctx, out, old(out.code), old(ctx.Labels()), p)
    decreases s, 1
  {
    hide LowerExpr, LowerStmts, LowerIf, LowerArm;
    match s {
      case Assume(_) =>
        return Ok(false);
      case ExprStmt(e) =>
        var _ :- EmitExpr(ctx, out, e);
        return Ok(false);
      case Let(init) =>
        if init.Some? {
          var _ :- EmitExpr(ctx, out, init.value);
        }
        return Ok(false);
      case Return(result) =>
        if result.Some? {
          var v :- EmitExpr(ctx, out, result.value);
          out.Push(Ret(Some(v)));
        } else {
          out.Push(Ret(None));
        }
        return Ok(true);
      case Loop(_) =>
        r := EmitLoop(ctx, out, s);
      case While(_, _) =>
        r := EmitWhile(ctx, out, s);
      case Break =>
        if ctx.breakLabels != [] {
          out.Push(Br(ctx.breakLabels[|ctx.breakLabels| - 1]));
        }
        return Ok(true);
      case Continue =>
        if ctx.continueLabels != [] {
          out.Push(Br(ctx.continueLabels[|ctx.continueLabels| - 1]));
        }
        return Ok(true);
      case For =>
        return Err;
    }
  }

  method EmitLoop(ctx: HirEmitCtx, out: Output, s: Stmt) returns (r: Result<bool>)
    requires s.Loop?
    modifies ctx, out
    ensures match LowerStmt(old(ctx.Labels()), old(ctx.counter), s)
            case Rejected => r.Err?
            case Done(p) => r == Ok(p.ends) && Appended(ctx, out, old(out.code), old(ctx.Labels()), p)
    decreases s, 0
  {
    hide LowerExpr, LowerStmts, LowerIf, LowerArm;
    var h := ctx.NextId();
    var x := ctx.NextId();
    var header, exit := Label(LoopHeader, h), Label(LoopExit, x);
    out.Push(Br(header));
    ctx.PushLoop(exit, header);
    var ends :- EmitArm(ctx, out, s.body, header, header);
    ctx.PopLoop();
    out.Push(LabelDef(exit));
    return Ok(false);
  }

  method EmitWhile(ctx: HirEmitCtx, out: Output, s: Stmt) returns (r: Result<bool>)
    requires s.While?
    modifies ctx, out
    ensures match LowerStmt(old(ctx.Labels()), old(ctx.counter), s)
            case Rejected => r.Err?
            case Done(p) => r == Ok(p.ends) && Appended(ctx, out, old(out.code), old(ctx.Labels()), p)
    decreases s, 0
  {
    hide LowerExpr, LowerStmts, LowerIf, LowerArm;
    ghost var start, sc := out.code, ctx.Labels();
    var h := ctx.NextId();
    var b := ctx.NextId();
    var x := ctx.NextId();
    var header, enter, exit := Label(WhileHeader, h), Label(WhileBody, b), Label(WhileExit, x);
    out.Push(Br(header));
    out.Push(LabelDef(header));
    ghost var test := LowerExpr(sc, ctx.counter, s.cond);
    var c :- EmitExpr(ctx, out, s.cond);
    out.Push(CondBr(c, enter, exit));
    assert out.code == start + ([Br(header), LabelDef(header)] + test.value.code + [CondBr(c, enter, exit)]);
    ctx.PushLoop(exit, header);
    ghost var arm := LowerArm(ctx.Labels(), ctx.counter, s.body, enter, header);
    assert arm.Rejected? ==> LowerStmt(sc, old(ctx.counter), s).Rejected?;
    var ends :- EmitArm(ctx, out, s.body, enter, header);
    ctx.PopLoop();
    assert ctx.Labels() == sc;
    out.Push(LabelDef(exit));
    return Ok(false);
  }

  /** The functions of one session share the counter, so it runs on from each to the next. */
  function LowerFns(sc: Scope, c: nat, bodies: seq<Block>): Result<seq<Code>>
    decreases |bodies|
  {
    if bodies == [] then Ok([])
    else
      match LowerStmts(sc, c, bodies[0].stmts)
      case Rejected => Err
      case Done(p) =>
        var rest :- LowerFns(sc, p.next, bodies[1..]);
        Ok([p.code] + rest)
  }

  method EmitItems(structName: string, fields: seq<string>, bodies: seq<Block>) returns (r: Result<seq<Code>>)
    ensures r == LowerFns(Scope(structName, fields, [], []), 0, bodies)
  {
    var ctx := new HirEmitCtx(structName, fields);
    ghost var sc := ctx.Labels();
    ghost var whole := LowerFns(sc, 0, bodies);
    var codes: seq<Code> := [];
    var i := 0;
    while i < |bodies|
      invariant 0 <= i <= |bodies| && ctx.Labels() == sc
      invariant match LowerFns(sc, ctx.counter, bodies[i..])
                case Err => whole.Err?
                case Ok(rest) => whole.Ok? && whole.value == codes + rest
    {
      assert bodies[i..][0] == bodies[i] && bodies[i..][1..] == bodies[i + 1..];
      var out := new Output();
      ghost var p := LowerStmts(sc, ctx.counter, bodies[i].stmts);
      var _ :- EmitBlock(ctx, out, bodies[i]);
      assert out.code == p.value.code;
      codes := codes + [out.code];
      i := i + 1;
    }
    assert whole.value == codes;
    return Ok(codes);
  }
}
