/** Emitted code is well formed: names are defined once, and branches have a target. */
module EmitHirNames {
  import opened Wrappers
  import opened Hir
  import opened Mlir
  import opened EmitHir

  datatype Name = RegName(reg: Reg) | LabelName(name: Label)

  /** The name that an instruction defines, if any. */
  function Defined(ins: Instr): set<Name> {
    match ins
    case Const(dst, _) => {RegName(dst)}
    case Arith(dst, _, _, _) => {RegName(dst)}
    case Gep(dst, _, _) => {RegName(dst)}
    case Load(dst, _) => {RegName(dst)}
    case PollUndef(dst) => {RegName(dst)}
    case InsertValue(dst, _, _, _) => {RegName(dst)}
    case LabelDef(l) => {LabelName(l)}
    case _ => {}
  }

  function Targets(ins: Instr): set<Label> {
    match ins
    case Br(l) => {l}
    case CondBr(_, l1, l2) => {l1, l2}
    case _ => {}
  }

  function Names(code: Code): set<Name> {
    if code == [] then {} else Defined(code[0]) + Names(code[1..])
  }

  /** Every label that the code branches to. */
  function Jumps(code: Code): set<Label> {
    if code == [] then {} else Targets(code[0]) + Jumps(code[1..])
  }

  /** No two instructions define the same name. */
  predicate Distinct(code: Code) {
    code == [] || (Defined(code[0]) !! Names(code[1..]) && Distinct(code[1..]))
  }

  /** The number in a generated name; the names of parameters carry none. */
  function IdOf(n: Name): Option<nat> {
    match n
    case RegName(Tmp(_, id)) => Some(id)
    case LabelName(Label(_, id)) => Some(id)
    case _ => None
  }

  ghost predicate InRange(code: Code, lo: nat, hi: nat) {
    forall n :: n in Names(code) ==> IdOf(n).Some? && lo <= IdOf(n).value < hi
  }

  /** The code defines distinct names, all numbered from `lo` up to but excluding `hi`. */
  ghost predicate Fresh(code: Code, lo: nat, hi: nat) {
    lo <= hi && Distinct(code) && InRange(code, lo, hi)
  }

  /** The code defines distinct names, and each branch goes to a label of the code or of `outer`. */
  ghost predicate WellFormed(code: Code, lo: nat, hi: nat, outer: set<Label>) {
    && Fresh(code, lo, hi)
    && forall l :: l in Jumps(code) ==> LabelName(l) in Names(code) || l in outer
  }

  /** The labels that a piece may branch to without defining them: those of the innermost loop. */
  function Outer(sc: Scope): set<Label> {
    (if sc.breaks == [] then {} else {sc.breaks[|sc.breaks| - 1]})
    + (if sc.continues == [] then {} else {sc.continues[|sc.continues| - 1]})
  }

  lemma {:induction false} Concat(a: Code, b: Code)
    ensures Names(a + b) == Names(a) + Names(b)
    ensures Jumps(a + b) == Jumps(a) + Jumps(b)
    ensures Distinct(a) && Distinct(b) && Names(a) !! Names(b) ==> Distinct(a + b)
  {
    if a == [] {
      assert a + b == b;
    } else {
      Concat(a[1..], b);
      assert (a + b)[1..] == a[1..] + b;
    }
  }

  lemma One(ins: Instr)
    ensures Names([ins]) == Defined(ins) && Jumps([ins]) == Targets(ins) && Distinct([ins])
  {
    assert [ins][1..] == [];
  }

  lemma Two(x: Instr, y: Instr)
    ensures Names([x, y]) == Defined(x) + Defined(y) && Jumps([x, y]) == Targets(x) + Targets(y)
    ensures Defined(x) !! Defined(y) ==> Distinct([x, y])
  {
    One(y);
    assert [x, y][1..] == [y];
  }

  lemma Three(x: Instr, y: Instr, z: Instr)
    ensures Names([x, y, z]) == Defined(x) + Defined(y) + Defined(z)
    ensures Jumps([x, y, z]) == Targets(x) + Targets(y) + Targets(z)
    ensures Defined(x) !! Defined(y) && (Defined(x) + Defined(y)) !! Defined(z) ==> Distinct([x, y, z])
  {
    Two(y, z);
    assert [x, y, z][1..] == [y, z];
  }

  /** Joining codes numbered one after the other. */
  lemma Join(a: Code, b: Code, lo: nat, mid: nat, hi: nat, outer: set<Label>)
    requires WellFormed(a, lo, mid, outer) && WellFormed(b, mid, hi, outer)
    ensures WellFormed(a + b, lo, hi, outer)
  {
    Concat(a, b);
  }

  /** Joining codes of one range whose names are known to be disjoint. */
  lemma Mix(a: Code, b: Code, lo: nat, hi: nat)
    requires Fresh(a, lo, hi) && Fresh(b, lo, hi) && Names(a) !! Names(b)
    ensures Fresh(a + b, lo, hi) && Names(a + b) == Names(a) + Names(b) && Jumps(a + b) == Jumps(a) + Jumps(b)
  {
    Concat(a, b);
  }

  lemma Mix4(a: Code, b: Code, c: Code, d: Code, lo: nat, hi: nat)
    requires Fresh(a, lo, hi) && Fresh(b, lo, hi) && Fresh(c, lo, hi) && Fresh(d, lo, hi)
    requires Names(a) !! Names(b) !! Names(c) !! Names(d)
    ensures Fresh(a + b + c + d, lo, hi)
    ensures Names(a + b + c + d) == Names(a) + Names(b) + Names(c) + Names(d)
    ensures Jumps(a + b + c + d) == Jumps(a) + Jumps(b) + Jumps(c) + Jumps(d)
  {
    Mix(a, b, lo, hi);
    Mix(a + b, c, lo, hi);
    Mix(a + b + c, d, lo, hi);
  }

  /** Names of an arm: its own label, and what its block defines from `c` on. */
  ghost predicate ArmNames(code: Code, name: Label, c: nat, next: nat, outer: set<Label>) {
    && name.id < c <= next
    && WellFormed(code, name.id, next, outer)
    && LabelName(name) in Names(code)
    && forall n :: n in Names(code) ==> n == LabelName(name) || c <= IdOf(n).value
  }

  lemma AssembleReady(tagged: Code, p: Code, pack: Instr, c: nat, next: nat, outer: set<Label>)
    requires WellFormed(tagged, c, c + 1, {}) && WellFormed(p, c + 1, next, outer)
    requires RegName(Tmp(PollReadyReg, c)) !in Names(tagged)
    requires Defined(pack) == {RegName(Tmp(PollReadyReg, c))} && Targets(pack) == {}
    ensures WellFormed(tagged + p + [pack], c, next, outer)
  {
    One(pack);
    Mix(tagged, p, c, next);
    Mix(tagged + p, [pack], c, next);
  }

  lemma AssembleIf(split: Instr, t: Code, other: Code, id: nat, mid: nat, next: nat, outer: set<Label>)
    requires ArmNames(t, Label(ThenBlock, id), id + 1, mid, outer + {Label(MergeBlock, id)})
    requires ArmNames(other, Label(ElseBlock, id), mid, next, outer + {Label(MergeBlock, id)})
    requires Defined(split) == {} && Targets(split) == {Label(ThenBlock, id), Label(ElseBlock, id)}
    ensures WellFormed([split] + t + other + [LabelDef(Label(MergeBlock, id))], id, next, outer)
  {
    One(split);
    One(LabelDef(Label(MergeBlock, id)));
    Mix4([split], t, other, [LabelDef(Label(MergeBlock, id))], id, next);
  }

  lemma AssembleIfThen(split: Instr, t: Code, id: nat, next: nat, outer: set<Label>)
    requires ArmNames(t, Label(ThenBlock, id), id + 1, next, outer + {Label(MergeBlock, id)})
    requires Defined(split) == {} && Targets(split) == {Label(ThenBlock, id), Label(MergeBlock, id)}
    ensures WellFormed([split] + t + [LabelDef(Label(MergeBlock, id))], id, next, outer)
  {
    One(split);
    One(LabelDef(Label(MergeBlock, id)));
    Mix([split], t, id, next);
    Mix([split] + t, [LabelDef(Label(MergeBlock, id))], id, next);
  }

  lemma AssembleLoop(b: Code, c: nat, next: nat, outer: set<Label>)
    requires ArmNames(b, Label(LoopHeader, c), c + 2, next, {Label(LoopHeader, c), Label(LoopExit, c + 1)})
    ensures WellFormed([Br(Label(LoopHeader, c))] + b + [LabelDef(Label(LoopExit, c + 1))], c, next, outer)
  {
    One(Br(Label(LoopHeader, c)));
    One(LabelDef(Label(LoopExit, c + 1)));
    Mix([Br(Label(LoopHeader, c))], b, c, next);
    Mix([Br(Label(LoopHeader, c))] + b, [LabelDef(Label(LoopExit, c + 1))], c, next);
  }

  lemma AssembleWhile(p: Code, cond: Reg, b: Code, c: nat, mid: nat, next: nat, outer: set<Label>)
    requires c + 3 <= mid && WellFormed(p, c + 3, mid, outer)
    requires ArmNames(b, Label(WhileBody, c + 1), mid, next, {Label(WhileHeader, c), Label(WhileExit, c + 2)})
    ensures WellFormed([Br(Label(WhileHeader, c)), LabelDef(Label(WhileHeader, c))] + p
                       + [CondBr(cond, Label(WhileBody, c + 1), Label(WhileExit, c + 2))] + b
                       + [LabelDef(Label(WhileExit, c + 2))], c, next, outer)
  {
    hide Names, Jumps, Distinct;
    var header, enter, exit := Label(WhileHeader, c), Label(WhileBody, c + 1), Label(WhileExit, c + 2);
    var entry, test := [Br(header), LabelDef(header)], [CondBr(cond, enter, exit)];
    Two(Br(header), LabelDef(header));
    One(test[0]);
    One(LabelDef(exit));
    Mix4(entry, p, test, b, c, next);
    Mix(entry + p + test + b, [LabelDef(exit)], c, next);
  }

  lemma {:induction false} ExprWellFormed(sc: Scope, c: nat, e: Expr)
    requires LowerExpr(sc, c, e).Done?
    ensures var p := LowerExpr(sc, c, e).value; WellFormed(p.code, c, p.next, Outer(sc))
    decreases e, 3
  {
    var whole := LowerExpr(sc, c, e).value;
    match e {
      case IntLit(_) =>
        One(whole.code[0]);
      case BoolLit(_) =>
        One(whole.code[0]);
      case Binary(_, _, _) =>
        BinaryWellFormed(sc, c, e);
      case Unary(_, _) =>
        UnaryWellFormed(sc, c, e);
      case Field(_, _, _) =>
        FieldWellFormed(sc, c, e);
      case Assign(target, rhs) =>
        AssignWellFormed(sc, c, e);
      case If(_, _, _) =>
        CondWellFormed(sc, c, e);
      case BlockExpr(block) =>
        StmtsWellFormed(sc, c, block.stmts);
      case PollPending =>
        Three(whole.code[0], whole.code[1], whole.code[2]);
      case PollReady(None) =>
        Three(whole.code[0], whole.code[1], whole.code[2]);
      case PollReady(Some(payload)) =>
        ReadyWellFormed(sc, c, payload);
      case _ =>
    }
  }

  lemma {:induction false} BinaryWellFormed(sc: Scope, c: nat, e: Expr)
    requires e.Binary? && LowerExpr(sc, c, e).Done?
    ensures var p := LowerExpr(sc, c, e).value; WellFormed(p.code, c, p.next, Outer(sc))
    decreases e, 0
  {
    hide LowerExpr, LowerIf;
    BinaryPiece(sc, c, e);
    ExprWellFormed(sc, c, e.lhs);
    var l := LowerExpr(sc, c, e.lhs).value;
    ExprWellFormed(sc, l.next, e.rhs);
    var r := LowerExpr(sc, l.next, e.rhs).value;
    Join(l.code, r.code, c, l.next, r.next, Outer(sc));
    var last := Arith(Tmp(BinReg, r.next), Mnemonic(e.op), l.reg, r.reg);
    One(last);
    Join(l.code + r.code, [last], c, r.next, r.next + 1, Outer(sc));
  }

  lemma {:induction false} UnaryWellFormed(sc: Scope, c: nat, e: Expr)
    requires e.Unary? && LowerExpr(sc, c, e).Done?
    ensures var p := LowerExpr(sc, c, e).value; WellFormed(p.code, c, p.next, Outer(sc))
    decreases e, 0
  {
    hide LowerExpr, LowerIf;
    UnaryPiece(sc, c, e);
    ExprWellFormed(sc, c, e.inner);
    var p := LowerExpr(sc, c, e.inner).value;
    UnaryCodeNames(e.uop, p.next, p.reg);
    Join(p.code, UnaryCode(e.uop, p.next, p.reg), c, p.next, p.next + 1, Outer(sc));
  }

  lemma {:induction false} FieldWellFormed(sc: Scope, c: nat, e: Expr)
    requires e.Field? && LowerExpr(sc, c, e).Done?
    ensures var p := LowerExpr(sc, c, e).value; WellFormed(p.code, c, p.next, Outer(sc))
    decreases e, 0
  {
    hide LowerExpr, LowerIf;
    FieldPiece(sc, c, e);
    ExprWellFormed(sc, c, e.base);
    var p := LowerExpr(sc, c, e.base).value;
    var tail := FieldCode(p.next, p.reg, FieldIndex(sc.structName, sc.fields, e.baseType, e.field));
    Two(tail[0], tail[1]);
    Join(p.code, tail, c, p.next, p.next + 1, Outer(sc));
  }

  lemma {:induction false} CondWellFormed(sc: Scope, c: nat, e: Expr)
    requires e.If? && LowerExpr(sc, c, e).Done?
    ensures var p := LowerExpr(sc, c, e).value; WellFormed(p.code, c, p.next, Outer(sc))
    decreases e, 1
  {
    hide LowerExpr, LowerIf;
    IfPiece(sc, c, e);
    ExprWellFormed(sc, c, e.cond);
    var p := LowerExpr(sc, c, e.cond).value;
    IfWellFormed(sc, p.next, p.reg, e);
    var q := LowerIf(sc, p.next, p.reg, e).value;
    Join(p.code, q.code, c, p.next, q.next, Outer(sc));
  }

  lemma UnaryCodeNames(op: UnOp, id: nat, r: Reg)
    ensures WellFormed(UnaryCode(op, id, r), id, id + 1, {})
  {
    var code := UnaryCode(op, id, r);
    if op.Deref? {
      One(code[0]);
    } else {
      Two(code[0], code[1]);
    }
  }

  lemma {:induction false} AssignWellFormed(sc: Scope, c: nat, e: Expr)
    requires e.Assign? && LowerExpr(sc, c, e).Done?
    ensures var p := LowerExpr(sc, c, e).value; WellFormed(p.code, c, p.next, Outer(sc))
    decreases e, 2
  {
    if e.target.Field? {
      FieldAssignWellFormed(sc, c, e);
    } else {
      ExprWellFormed(sc, c, e.rhs);
    }
  }

  lemma {:induction false} FieldAssignWellFormed(sc: Scope, c: nat, e: Expr)
    requires e.Assign? && e.target.Field? && LowerExpr(sc, c, e).Done?
    ensures var p := LowerExpr(sc, c, e).value; WellFormed(p.code, c, p.next, Outer(sc))
    decreases e, 0
  {
    hide LowerExpr;
    AssignPiece(sc, c, e);
    ExprWellFormed(sc, c, e.rhs);
    var r := LowerExpr(sc, c, e.rhs).value;
    ExprWellFormed(sc, r.next + 1, e.target.base);
    var p := LowerExpr(sc, r.next + 1, e.target.base).value;
    var store := StoreCode(r.next, r.reg, p.reg,
                           FieldIndex(sc.structName, sc.fields, e.target.baseType, e.target.field));
    Two(store[0], store[1]);
    Concat(p.code, store);
    Join(r.code, p.code + store, c, r.next, p.next, Outer(sc));
    assert r.code + p.code + store == r.code + (p.code + store);
  }

  lemma {:induction false} ReadyWellFormed(sc: Scope, c: nat, payload: Expr)
    requires LowerExpr(sc, c, PollReady(Some(payload))).Done?
    ensures var p := LowerExpr(sc, c, PollReady(Some(payload))).value; WellFormed(p.code, c, p.next, Outer(sc))
    decreases payload, 4
  {
    ExprWellFormed(sc, c + 1, payload);
    var p := LowerExpr(sc, c + 1, payload).value;
    var tagged := PollCode(c, 1, PollTaggedReg);
    var pack := [InsertValue(Tmp(PollReadyReg, c), p.reg, Tmp(PollTaggedReg, c), 1)];
    PollNames(c, 1, PollTaggedReg);
    AssembleReady(tagged, p.code, pack[0], c, p.next, Outer(sc));
  }

  lemma PollNames(id: nat, disc: int, dst: RegKind)
    requires dst != PollUndefReg && dst != PollDiscReg
    ensures WellFormed(PollCode(id, disc, dst), id, id + 1, {}) && Jumps(PollCode(id, disc, dst)) == {}
    ensures forall k :: RegName(Tmp(k, id)) in Names(PollCode(id, disc, dst)) <==> k in {PollUndefReg, PollDiscReg, dst}
  {
    var code := PollCode(id, disc, dst);
    Three(code[0], code[1], code[2]);
  }

  lemma {:induction false} ArmWellFormed(sc: Scope, c: nat, block: Block, name: Label, after: Label)
    requires LowerArm(sc, c, block, name, after).Done? && name.id < c
    ensures var p := LowerArm(sc, c, block, name, after).value; ArmNames(p.code, name, c, p.next, Outer(sc) + {after})
    decreases block, 0
  {
    StmtsWellFormed(sc, c, block.stmts);
    var p := LowerStmts(sc, c, block.stmts).value;
    var head, close := [LabelDef(name)], if p.ends then [] else [Br(after)];
    One(LabelDef(name));
    One(Br(after));
    Concat(head, p.code);
    Concat(head + p.code, close);
  }

  lemma {:induction false} IfWellFormed(sc: Scope, id: nat, cond: Reg, e: Expr)
    requires e.If? && LowerIf(sc, id, cond, e).Done?
    ensures var p := LowerIf(sc, id, cond, e).value; WellFormed(p.code, id, p.next, Outer(sc))
    decreases e, 0
  {
    var onTrue, onFalse, merge := Label(ThenBlock, id), Label(ElseBlock, id), Label(MergeBlock, id);
    ArmWellFormed(sc, id + 1, e.thenBranch, onTrue, merge);
    var t := LowerArm(sc, id + 1, e.thenBranch, onTrue, merge).value;
    if e.elseBranch.None? {
      AssembleIfThen(CondBr(cond, onTrue, merge), t.code, id, t.next, Outer(sc));
    } else if e.elseBranch.value.BlockExpr? {
      ArmWellFormed(sc, t.next, e.elseBranch.value.block, onFalse, merge);
      var f := LowerArm(sc, t.next, e.elseBranch.value.block, onFalse, merge).value;
      AssembleIf(CondBr(cond, onTrue, onFalse), t.code, f.code, id, t.next, f.next, Outer(sc));
    } else {
      One(LabelDef(onFalse));
      AssembleIf(CondBr(cond, onTrue, onFalse), t.code, [LabelDef(onFalse)], id, t.next, t.next, Outer(sc));
    }
  }

  lemma {:induction false} StmtsWellFormed(sc: Scope, c: nat, stmts: seq<Stmt>)
    requires LowerStmts(sc, c, stmts).Done?
    ensures var p := LowerStmts(sc, c, stmts).value; WellFormed(p.code, c, p.next, Outer(sc))
    decreases stmts, 0
  {
    if stmts != [] {
      StmtWellFormed(sc, c, stmts[0]);
      var p := LowerStmt(sc, c, stmts[0]).value;
      if !p.ends {
        StmtsWellFormed(sc, p.next, stmts[1..]);
        var q := LowerStmts(sc, p.next, stmts[1..]).value;
        Join(p.code, q.code, c, p.next, q.next, Outer(sc));
      }
    }
  }

  lemma {:induction false} StmtWellFormed(sc: Scope, c: nat, s: Stmt)
    requires LowerStmt(sc, c, s).Done?
    ensures var p := LowerStmt(sc, c, s).value; WellFormed(p.code, c, p.next, Outer(sc))
    decreases s, 1
  {
    match s {
      case ExprStmt(e) =>
        ExprWellFormed(sc, c, e);
      case Let(Some(e)) =>
        ExprWellFormed(sc, c, e);
      case Return(Some(e)) =>
        ExprWellFormed(sc, c, e);
        var p := LowerExpr(sc, c, e).value;
        One(Ret(Some(p.reg)));
        Join(p.code, [Ret(Some(p.reg))], c, p.next, p.next, Outer(sc));
      case Loop(_) =>
        LoopWellFormed(sc, c, s);
      case While(_, _) =>
        WhileWellFormed(sc, c, s);
      case Return(None) =>
        One(Ret(None));
      case Break =>
        if sc.breaks != [] {
          One(Br(sc.breaks[|sc.breaks| - 1]));
        }
      case Continue =>
        if sc.continues != [] {
          One(Br(sc.continues[|sc.continues| - 1]));
        }
      case _ =>
    }
  }

  lemma {:induction false} LoopWellFormed(sc: Scope, c: nat, s: Stmt)
    requires s.Loop? && LowerStmt(sc, c, s).Done?
    ensures var p := LowerStmt(sc, c, s).value; WellFormed(p.code, c, p.next, Outer(sc))
    decreases s, 0
  {
    var header, exit := Label(LoopHeader, c), Label(LoopExit, c + 1);
    ArmWellFormed(Enter(sc, exit, header), c + 2, s.body, header, header);
    var b := LowerArm(Enter(sc, exit, header), c + 2, s.body, header, header).value;
    AssembleLoop(b.code, c, b.next, Outer(sc));
  }

  lemma {:induction false} WhileWellFormed(sc: Scope, c: nat, s: Stmt)
    requires s.While? && LowerStmt(sc, c, s).Done?
    ensures var p := LowerStmt(sc, c, s).value; WellFormed(p.code, c, p.next, Outer(sc))
    decreases s, 0
  {
    var header, enter, exit := Label(WhileHeader, c), Label(WhileBody, c + 1), Label(WhileExit, c + 2);
    ExprWellFormed(sc, c + 3, s.cond);
    var p := LowerExpr(sc, c + 3, s.cond).value;
    ArmWellFormed(Enter(sc, exit, header), p.next, s.body, enter, header);
    var b := LowerArm(Enter(sc, exit, header), p.next, s.body, enter, header).value;
    AssembleWhile(p.code, p.reg, b.code, c, p.next, b.next, Outer(sc));
  }

  lemma {:induction false} NamesAt(code: Code, n: Name)
    ensures n in Names(code) <==> exists i :: 0 <= i < |code| && n in Defined(code[i])
  {
    if code != [] {
      NamesAt(code[1..], n);
      assert forall i :: 0 <= i < |code[1..]| ==> code[1..][i] == code[i + 1];
      if i :| 0 <= i < |code| && n in Defined(code[i]) && i > 0 {
        assert n in Defined(code[1..][i - 1]);
      }
    }
  }

  /** In code with distinct names, a name has one place of definition. */
  lemma {:induction false} OneDefinition(code: Code, n: Name, i: nat, j: nat)
    requires Distinct(code) && i < |code| && j < |code| && n in Defined(code[i]) && n in Defined(code[j])
    ensures i == j
  {
    if i > 0 && j > 0 {
      OneDefinition(code[1..], n, i - 1, j - 1);
    } else {
      NamesAt(code[1..], n);
      assert forall k :: 0 <= k < |code[1..]| ==> code[1..][k] == code[k + 1];
    }
  }

  /** Where a label is defined is where a branch to it goes. */
  lemma FindLabel(code: Code, i: nat)
    requires Distinct(code) && i < |code| && code[i].LabelDef?
    ensures Find(code, code[i].name) == i
  {
    OneDefinition(code, LabelName(code[i].name), Find(code, code[i].name), i);
  }

  function Flatten(codes: seq<Code>): Code {
    if codes == [] then [] else codes[0] + Flatten(codes[1..])
  }

  lemma BranchesLand(sc: Scope, c: nat, block: Block)
    requires sc.breaks == [] && sc.continues == [] && LowerStmts(sc, c, block.stmts).Done?
    ensures var code := LowerStmts(sc, c, block.stmts).value.code;
            forall l :: l in Jumps(code) ==> Find(code, l) < |code|
  {
    StmtsWellFormed(sc, c, block.stmts);
    var code := LowerStmts(sc, c, block.stmts).value.code;
    forall l | l in Jumps(code)
      ensures Find(code, l) < |code|
    {
      NamesAt(code, LabelName(l));
    }
  }

  /** Over a whole session, for any functions: every name and label is defined once, across all of
      them, and each branch goes to a label of its own function. */
  lemma {:induction false} SessionWellFormed(sc: Scope, c: nat, bodies: seq<Block>) returns (hi: nat)
    requires sc.breaks == [] && sc.continues == [] && LowerFns(sc, c, bodies).Ok?
    ensures var codes := LowerFns(sc, c, bodies).value;
            && Fresh(Flatten(codes), c, hi)
            && forall i, l :: 0 <= i < |codes| && l in Jumps(codes[i]) ==> Find(codes[i], l) < |codes[i]|
    decreases |bodies|
  {
    if bodies == [] {
      hi := c;
    } else {
      var p := LowerStmts(sc, c, bodies[0].stmts).value;
      var rest := LowerFns(sc, p.next, bodies[1..]).value;
      StmtsWellFormed(sc, c, bodies[0].stmts);
      BranchesLand(sc, c, bodies[0]);
      hi := SessionWellFormed(sc, p.next, bodies[1..]);
      Concat(p.code, Flatten(rest));
      FlattenCons(p.code, rest);
    }
  }

  lemma FlattenCons(first: Code, rest: seq<Code>)
    ensures Flatten([first] + rest) == first + Flatten(rest)
  {
    assert ([first] + rest)[1..] == rest;
  }
}
