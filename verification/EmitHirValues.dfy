/** Emitted expressions compute the value and the store effects that the HIR gives them. */
module EmitHirValues {
  import opened Wrappers
  import opened Hir
  import opened Mlir
  import opened EmitHir

  /** Expressions that yield a value: control flow and contracts yield none here. */
  predicate ValueExpr(structName: string, e: Expr) {
    match e
    case IntLit(_) => true
    case BoolLit(_) => true
    case Var(_) => true
    case Binary(_, lhs, rhs) => ValueExpr(structName, lhs) && ValueExpr(structName, rhs)
    case Unary(_, inner) => ValueExpr(structName, inner)
    case Field(base, baseType, _) => Typed(structName, baseType) && ValueExpr(structName, base)
    case Assign(target, rhs) =>
      target.Field? && Typed(structName, target.baseType) && ValueExpr(structName, target.base)
      && ValueExpr(structName, rhs)
    case PollPending => true
    case PollReady(None) => true
    case PollReady(Some(payload)) => ValueExpr(structName, payload)
    case _ => false
  }

  /** The type of a base is unknown or names the registered struct. */
  predicate Typed(structName: string, t: BaseType) {
    t.Named? ==> t.name == structName
  }

  /** The struct being run on is the registered one: distinct fields, with `__state` first if present. */
  ghost predicate Registered(w: World, sc: Scope) {
    && w.fields == sc.fields
    && (forall i, j :: 0 <= i < j < |w.fields| ==> w.fields[i] != w.fields[j])
    && ("__state" in w.fields ==> w.fields[0] == "__state")
  }

  /** The state struct as the machine lays it out. */
  function Contents(fields: seq<string>, mem: Memory): (s: seq<Value>)
    ensures |s| == |fields|
  {
    seq(|fields|, i requires 0 <= i < |fields| => if fields[i] in mem then mem[fields[i]] else Undef)
  }

  ghost predicate Holds(w: World, mem: Memory) {
    forall f :: f in mem <==> f in w.fields
  }

  ghost predicate Params(w: World, regs: Registers) {
    forall id :: id in w.env ==> Arg(id) in regs && regs[Arg(id)] == w.env[id]
  }

  /** Only registers numbered from `lo` up to but excluding `hi` may have changed. */
  ghost predicate Kept(before: Registers, after: Registers, lo: nat, hi: nat) {
    forall r :: r in before && !(r.Tmp? && lo <= r.id < hi) ==> r in after && after[r] == before[r]
  }

  predicate Numbered(r: Reg, lo: nat, hi: nat) {
    r.Arg? || (r.Tmp? && lo <= r.id < hi)
  }

  ghost predicate At(code: Code, a: nat, piece: Code) {
    a + |piece| <= |code| && code[a..a + |piece|] == piece
  }

  lemma AtSplit(code: Code, a: nat, x: Code, y: Code)
    requires At(code, a, x + y)
    ensures At(code, a, x) && At(code, a + |x|, y)
  {
    assert code[a..a + |x|] == (x + y)[..|x|];
    assert code[a + |x|..a + |x| + |y|] == (x + y)[|x|..];
  }

  lemma AtIndex(code: Code, a: nat, piece: Code, i: nat)
    requires At(code, a, piece) && i < |piece|
    ensures code[a + i] == piece[i]
  {
    assert code[a..a + |piece|][i] == code[a + i];
  }

  /** The field index is right exactly when the struct's name is known, or the field is not
      `__state`, or `__state` is the struct's first field. */
  lemma FieldIndexCorrect(structName: string, fields: seq<string>, t: BaseType, f: string)
    requires f in fields && (forall i, j :: 0 <= i < j < |fields| ==> fields[i] != fields[j])
    requires t.Named? ==> t.name == structName
    ensures FieldIndex(structName, fields, t, f) < |fields|
    ensures fields[FieldIndex(structName, fields, t, f)] == f
            <==> t.Named? || f != "__state" || fields[0] == "__state"
  {
  }

  /** Where a struct or a field is not registered the index is 0. */
  lemma UnknownFieldIsFirst(structName: string, fields: seq<string>, t: BaseType, f: string)
    requires f !in fields || (t.Named? && t.name != structName)
    ensures FieldIndex(structName, fields, t, f) == 0
  {
  }

  /** The emitted mnemonic computes what the operator means, whenever that is defined. */
  lemma MnemonicCorrect(w: World, op: BinOp, a: Value, b: Value)
    requires BinMeaning(w, op, a, b).Some?
    ensures ArithMeaning(w, Mnemonic(op), a, b) == BinMeaning(w, op, a, b)
  {
  }

  /** Integer arithmetic without bounds; the operations on bits and signs only as far as they are needed. */
  ghost predicate Usual(w: World) {
    && (forall x, y :: w.arith(IAdd, x, y) == Some(x + y) && w.arith(ISub, x, y) == Some(x - y))
    && (forall x, y :: w.arith(IMul, x, y) == Some(x * y))
    && (forall x, y :: x >= 0 && y > 0 ==> w.arith(IDiv, x, y) == Some(x / y) && w.arith(IRem, x, y) == Some(x % y))
    && (forall x, y :: 0 <= x <= 1 && 0 <= y <= 1 ==>
          && w.arith(IAnd, x, y) == Some(if x == 1 && y == 1 then 1 else 0)
          && w.arith(IOr, x, y) == Some(if x == 1 || y == 1 then 1 else 0)
          && w.arith(IXor, x, y) == Some(if x != y then 1 else 0))
    && (forall x :: x >= 0 ==> w.arith(IShl, x, 1) == Some(2 * x) && w.arith(IShr, x, 1) == Some(x / 2))
  }

  /** The value that both the operator and its mnemonic give two integers. */
  ghost predicate OnInts(w: World, op: BinOp, x: int, y: int, v: Value) {
    BinMeaning(w, op, Int(x), Int(y)) == Some(v) && ArithMeaning(w, Mnemonic(op), Int(x), Int(y)) == Some(v)
  }

  ghost predicate OnBools(w: World, op: BinOp, x: bool, y: bool, v: bool) {
    && BinMeaning(w, op, Bool(x), Bool(y)) == Some(Bool(v))
    && ArithMeaning(w, Mnemonic(op), Bool(x), Bool(y)) == Some(Bool(v))
  }

  /** Under the usual arithmetic each operator is the operation that it is called, in the source and in
      the code. */
  lemma ArithmeticIsUsual(w: World, x: int, y: int)
    requires Usual(w)
    ensures OnInts(w, Add, x, y, Int(x + y)) && OnInts(w, Sub, x, y, Int(x - y)) && OnInts(w, Mul, x, y, Int(x * y))
    ensures x >= 0 && y > 0 ==> OnInts(w, Div, x, y, Int(x / y)) && OnInts(w, Rem, x, y, Int(x % y))
    ensures forall mem :: UnMeaning(w, Neg, Int(x), mem) == Some(Int(-x))
  {
  }

  lemma ComparisonsAreUsual(w: World, x: int, y: int)
    ensures OnInts(w, Eq, x, y, Bool(x == y)) && OnInts(w, Ne, x, y, Bool(x != y))
    ensures OnInts(w, Lt, x, y, Bool(x < y)) && OnInts(w, Le, x, y, Bool(x <= y))
    ensures OnInts(w, Gt, x, y, Bool(x > y)) && OnInts(w, Ge, x, y, Bool(x >= y))
  {
  }

  lemma ConnectivesAreUsual(w: World, p: bool, q: bool)
    ensures OnBools(w, And, p, q, p && q) && OnBools(w, Or, p, q, p || q)
    ensures OnBools(w, BitAnd, p, q, p && q) && OnBools(w, BitOr, p, q, p || q) && OnBools(w, BitXor, p, q, p != q)
    ensures OnBools(w, Eq, p, q, p == q) && OnBools(w, Ne, p, q, p != q)
    ensures forall mem :: UnMeaning(w, Not, Bool(p), mem) == Some(Bool(!p))
  {
  }

  lemma BitsAreUsual(w: World, x: int, y: int)
    requires Usual(w)
    ensures 0 <= x <= 1 && 0 <= y <= 1 ==>
              && OnInts(w, BitAnd, x, y, Int(if x == 1 && y == 1 then 1 else 0))
              && OnInts(w, BitOr, x, y, Int(if x == 1 || y == 1 then 1 else 0))
              && OnInts(w, BitXor, x, y, Int(if x != y then 1 else 0))
    ensures x >= 0 ==> OnInts(w, Shl, x, 1, Int(2 * x)) && OnInts(w, Shr, x, 1, Int(x / 2))
  {
  }

  lemma FieldOf(w: World, sc: Scope, t: BaseType, f: string, mem: Memory)
    requires Registered(w, sc) && Typed(sc.structName, t) && Holds(w, mem) && f in mem
    ensures FieldIndex(sc.structName, sc.fields, t, f) < |w.fields|
    ensures w.fields[FieldIndex(sc.structName, sc.fields, t, f)] == f
  {
    FieldIndexCorrect(sc.structName, sc.fields, t, f);
  }

  /** What a run of an expression's code from `a` does. */
  ghost predicate Computes(w: World, code: Code, a: nat, p: Piece, lo: nat, regs: Registers, mem: Memory,
                           regs': Registers, v: Value, mem': Memory)
  {
    && Run(w, code, |p.code|, Running(a, regs, Contents(w.fields, mem)))
       == Running(a + |p.code|, regs', Contents(w.fields, mem'))
    && p.reg in regs' && regs'[p.reg] == v
    && lo <= p.next && Numbered(p.reg, lo, p.next)
    && Kept(regs, regs', lo, p.next)
    && Params(w, regs') && Holds(w, mem')
  }

  lemma RunTwo(w: World, code: Code, cfg: Config)
    ensures Run(w, code, 1, cfg) == Step(w, code, cfg)
    ensures Run(w, code, 2, cfg) == Step(w, code, Step(w, code, cfg))
  {
    var next := Step(w, code, cfg);
    assert Run(w, code, 2, cfg) == Run(w, code, 1, next);
    assert Run(w, code, 1, next) == Run(w, code, 0, Step(w, code, next));
  }

  lemma RunThree(w: World, code: Code, cfg: Config)
    ensures Run(w, code, 3, cfg) == Step(w, code, Step(w, code, Step(w, code, cfg)))
  {
    RunTwo(w, code, Step(w, code, cfg));
  }

  lemma {:induction false} SimExpr(w: World, code: Code, sc: Scope, c: nat, e: Expr, a: nat, regs: Registers,
                                   mem: Memory)
    returns (regs': Registers)
    requires Registered(w, sc) && ValueExpr(sc.structName, e) && LowerExpr(sc, c, e).Done?
    requires At(code, a, LowerExpr(sc, c, e).value.code)
    requires Params(w, regs) && Holds(w, mem) && Eval(w, e, mem).Val?
    ensures var r := Eval(w, e, mem);
            Computes(w, code, a, LowerExpr(sc, c, e).value, c, regs, mem, regs', r.v, r.mem)
    decreases e, 1
  {
    hide Run, Computes, Kept, Params, Contents, Numbered, Holds;
    var p := LowerExpr(sc, c, e).value;
    match e {
      case IntLit(n) =>
        regs' := SimConst(w, code, a, p, c, Int(n), regs, mem);
      case BoolLit(b) =>
        regs' := SimConst(w, code, a, p, c, Bool(b), regs, mem);
      case Var(id) =>
        regs' := regs;
        SimParam(w, code, a, p, id, c, regs, mem);
      case Binary(_, _, _) =>
        regs' := SimBinary(w, code, sc, c, e, a, regs, mem);
      case Unary(_, _) =>
        regs' := SimUnary(w, code, sc, c, e, a, regs, mem);
      case Field(_, _, _) =>
        regs' := SimField(w, code, sc, c, e, a, regs, mem);
      case Assign(target, rhs) =>
        regs' := SimAssign(w, code, sc, c, e, a, regs, mem);
      case PollPending =>
        regs' := SimPoll(w, code, a, p, c, 0, PollPendingReg, regs, mem);
      case PollReady(None) =>
        regs' := SimPoll(w, code, a, p, c, 1, PollTaggedReg, regs, mem);
      case PollReady(Some(payload)) =>
        regs' := SimReady(w, code, sc, c, payload, a, regs, mem);
    }
  }

  lemma {:induction false} SimBinary(w: World, code: Code, sc: Scope, c: nat, e: Expr, a: nat, regs: Registers,
                                     mem: Memory)
    returns (regs': Registers)
    requires e.Binary?
    requires Registered(w, sc) && ValueExpr(sc.structName, e) && LowerExpr(sc, c, e).Done?
    requires At(code, a, LowerExpr(sc, c, e).value.code)
    requires Params(w, regs) && Holds(w, mem) && Eval(w, e, mem).Val?
    ensures var r := Eval(w, e, mem);
            Computes(w, code, a, LowerExpr(sc, c, e).value, c, regs, mem, regs', r.v, r.mem)
    decreases e, 0
  {
    hide Run, Computes, Kept, Params, Contents, Numbered, Holds, LowerExpr;
    BinaryPiece(sc, c, e);
    var l, r1 := LowerExpr(sc, c, e.lhs).value, Eval(w, e.lhs, mem);
    var r, r2 := LowerExpr(sc, l.next, e.rhs).value, Eval(w, e.rhs, r1.mem);
    AtSplit(code, a, l.code + r.code, [Arith(Tmp(BinReg, r.next), Mnemonic(e.op), l.reg, r.reg)]);
    AtSplit(code, a, l.code, r.code);
    var regs1 := SimExpr(w, code, sc, c, e.lhs, a, regs, mem);
    Computed(w, code, a, l, c, regs, mem, regs1, r1.v, r1.mem);
    var regs2 := SimExpr(w, code, sc, l.next, e.rhs, a + |l.code|, regs1, r1.mem);
    regs' := FinishBinary(w, code, a, l, r, e.op, c, regs, mem, regs1, r1.v, r1.mem, regs2, r2.v, r2.mem);
  }

  lemma {:induction false} SimUnary(w: World, code: Code, sc: Scope, c: nat, e: Expr, a: nat, regs: Registers,
                                    mem: Memory)
    returns (regs': Registers)
    requires e.Unary?
    requires Registered(w, sc) && ValueExpr(sc.structName, e) && LowerExpr(sc, c, e).Done?
    requires At(code, a, LowerExpr(sc, c, e).value.code)
    requires Params(w, regs) && Holds(w, mem) && Eval(w, e, mem).Val?
    ensures var r := Eval(w, e, mem);
            Computes(w, code, a, LowerExpr(sc, c, e).value, c, regs, mem, regs', r.v, r.mem)
    decreases e, 0
  {
    hide Run, Computes, Kept, Params, Contents, Numbered, Holds, LowerExpr;
    UnaryPiece(sc, c, e);
    var q, r := LowerExpr(sc, c, e.inner).value, Eval(w, e.inner, mem);
    AtSplit(code, a, q.code, UnaryCode(e.uop, q.next, q.reg));
    var regs1 := SimExpr(w, code, sc, c, e.inner, a, regs, mem);
    if e.uop == Deref {
      regs' := FinishDeref(w, code, a, q, c, regs, mem, regs1, r.v, r.mem);
    } else {
      regs' := FinishUnary(w, code, a, q, e.uop, c, regs, mem, regs1, r.v, r.mem);
    }
  }

  lemma {:induction false} SimField(w: World, code: Code, sc: Scope, c: nat, e: Expr, a: nat, regs: Registers,
                                    mem: Memory)
    returns (regs': Registers)
    requires e.Field?
    requires Registered(w, sc) && ValueExpr(sc.structName, e) && LowerExpr(sc, c, e).Done?
    requires At(code, a, LowerExpr(sc, c, e).value.code)
    requires Params(w, regs) && Holds(w, mem) && Eval(w, e, mem).Val?
    ensures var r := Eval(w, e, mem);
            Computes(w, code, a, LowerExpr(sc, c, e).value, c, regs, mem, regs', r.v, r.mem)
    decreases e, 0
  {
    hide Run, Computes, Kept, Params, Contents, Numbered, Holds, LowerExpr;
    FieldPiece(sc, c, e);
    var q, r := LowerExpr(sc, c, e.base).value, Eval(w, e.base, mem);
    var index := FieldIndex(sc.structName, sc.fields, e.baseType, e.field);
    AtSplit(code, a, q.code, FieldCode(q.next, q.reg, index));
    var regs1 := SimExpr(w, code, sc, c, e.base, a, regs, mem);
    Computed(w, code, a, q, c, regs, mem, regs1, StatePtr, r.mem);
    FieldOf(w, sc, e.baseType, e.field, r.mem);
    regs' := FinishField(w, code, a, q, index, e.field, c, regs, mem, regs1, r.mem);
  }

  lemma SimParam(w: World, code: Code, a: nat, p: Piece, id: nat, c: nat, regs: Registers, mem: Memory)
    requires p.reg == Arg(id) && p.next == c && p.code == [] && id in w.env
    requires Params(w, regs) && Holds(w, mem)
    ensures Computes(w, code, a, p, c, regs, mem, regs, w.env[id], mem)
  {
  }

  /** What the code after a computation may rely on. */
  lemma Computed(w: World, code: Code, a: nat, p: Piece, lo: nat, regs: Registers, mem: Memory,
                 regs': Registers, v: Value, mem': Memory)
    requires Computes(w, code, a, p, lo, regs, mem, regs', v, mem')
    ensures Params(w, regs') && Holds(w, mem') && lo <= p.next
  {
  }

  lemma SimConst(w: World, code: Code, a: nat, p: Piece, c: nat, v: Value, regs: Registers, mem: Memory)
    returns (regs': Registers)
    requires p.reg.Tmp? && p.reg.id == c && p.next == c + 1 && p.code == [Const(p.reg, v)]
    requires At(code, a, p.code) && Params(w, regs) && Holds(w, mem)
    ensures Computes(w, code, a, p, c, regs, mem, regs', v, mem)
  {
    hide Run;
    AtIndex(code, a, p.code, 0);
    RunTwo(w, code, Running(a, regs, Contents(w.fields, mem)));
    regs' := regs[p.reg := v];
  }

  lemma FinishBinary(w: World, code: Code, a: nat, l: Piece, r: Piece, op: BinOp, c: nat,
                     regs: Registers, mem: Memory, regs1: Registers, x: Value, mem1: Memory,
                     regs2: Registers, y: Value, mem2: Memory) returns (regs': Registers)
    requires Computes(w, code, a, l, c, regs, mem, regs1, x, mem1)
    requires Computes(w, code, a + |l.code|, r, l.next, regs1, mem1, regs2, y, mem2)
    requires BinMeaning(w, op, x, y).Some?
    requires At(code, a + |l.code| + |r.code|, [Arith(Tmp(BinReg, r.next), Mnemonic(op), l.reg, r.reg)])
    ensures var dst := Tmp(BinReg, r.next);
            Computes(w, code, a,
                     Piece(l.code + r.code + [Arith(dst, Mnemonic(op), l.reg, r.reg)], r.next + 1, dst, false),
                     c, regs, mem, regs', BinMeaning(w, op, x, y).value, mem2)
  {
    hide Run;
    var start := Running(a, regs, Contents(w.fields, mem));
    RunAdd(w, code, |l.code|, |r.code|, start);
    RunAdd(w, code, |l.code| + |r.code|, 1, start);
    AtIndex(code, a + |l.code| + |r.code|, [Arith(Tmp(BinReg, r.next), Mnemonic(op), l.reg, r.reg)], 0);
    RunTwo(w, code, Running(a + |l.code| + |r.code|, regs2, Contents(w.fields, mem2)));
    MnemonicCorrect(w, op, x, y);
    assert l.reg in regs2 && regs2[l.reg] == x;
    regs' := regs2[Tmp(BinReg, r.next) := BinMeaning(w, op, x, y).value];
  }

  /** The two instructions of a negation of either kind. */
  lemma RunUnary(w: World, code: Code, pc: nat, op: UnOp, id: nat, r: Reg, regs: Registers, x: Value, mem: Memory)
    requires op != Deref && UnMeaning(w, op, x, mem).Some? && At(code, pc, UnaryCode(op, id, r))
    requires r in regs && regs[r] == x && (r.Tmp? ==> r.id < id)
    ensures var aux := if op.Not? then Tmp(TrueReg, id) else Tmp(ZeroReg, id);
            var auxValue := if op.Not? then Bool(true) else Int(0);
            Run(w, code, 2, Running(pc, regs, Contents(w.fields, mem)))
            == Running(pc + 2, regs[aux := auxValue][Tmp(UnReg, id) := UnMeaning(w, op, x, mem).value],
                       Contents(w.fields, mem))
    ensures |UnaryCode(op, id, r)| == 2
  {
    hide Run, Contents;
    AtIndex(code, pc, UnaryCode(op, id, r), 0);
    AtIndex(code, pc, UnaryCode(op, id, r), 1);
    RunTwo(w, code, Running(pc, regs, Contents(w.fields, mem)));
  }

  lemma FinishUnary(w: World, code: Code, a: nat, q: Piece, op: UnOp, c: nat,
                    regs: Registers, mem: Memory, regs1: Registers, x: Value, mem1: Memory) returns (regs': Registers)
    requires Computes(w, code, a, q, c, regs, mem, regs1, x, mem1)
    requires op != Deref && UnMeaning(w, op, x, mem1).Some?
    requires At(code, a + |q.code|, UnaryCode(op, q.next, q.reg))
    ensures Computes(w, code, a, Piece(q.code + UnaryCode(op, q.next, q.reg), q.next + 1, Tmp(UnReg, q.next), false),
                     c, regs, mem, regs', UnMeaning(w, op, x, mem1).value, mem1)
  {
    hide Run, Contents, Kept, Holds, Params, Execute, UnaryCode;
    var start := Running(a, regs, Contents(w.fields, mem));
    RunAdd(w, code, |q.code|, 2, start);
    var aux := if op.Not? then Tmp(TrueReg, q.next) else Tmp(ZeroReg, q.next);
    var auxValue := if op.Not? then Bool(true) else Int(0);
    RunUnary(w, code, a + |q.code|, op, q.next, q.reg, regs1, x, mem1);
    regs' := regs1[aux := auxValue][Tmp(UnReg, q.next) := UnMeaning(w, op, x, mem1).value];
    KeptOnward(w, regs, regs1, c, q.next, aux, auxValue, Tmp(UnReg, q.next), UnMeaning(w, op, x, mem1).value);
  }

  /** The load that a dereference becomes. */
  lemma FinishDeref(w: World, code: Code, a: nat, q: Piece, c: nat,
                    regs: Registers, mem: Memory, regs1: Registers, x: Value, mem1: Memory) returns (regs': Registers)
    requires Computes(w, code, a, q, c, regs, mem, regs1, x, mem1)
    requires UnMeaning(w, Deref, x, mem1).Some?
    requires At(code, a + |q.code|, UnaryCode(Deref, q.next, q.reg))
    ensures Computes(w, code, a,
                     Piece(q.code + UnaryCode(Deref, q.next, q.reg), q.next + 1, Tmp(UnReg, q.next), false),
                     c, regs, mem, regs', UnMeaning(w, Deref, x, mem1).value, mem1)
  {
    hide Run, Kept, Holds, Params;
    var start := Running(a, regs, Contents(w.fields, mem));
    var tail, v := UnaryCode(Deref, q.next, q.reg), UnMeaning(w, Deref, x, mem1).value;
    RunAdd(w, code, |q.code|, 1, start);
    AtIndex(code, a + |q.code|, tail, 0);
    RunTwo(w, code, Running(a + |q.code|, regs1, Contents(w.fields, mem1)));
    regs' := regs1[Tmp(UnReg, q.next) := v];
    KeptOnward(w, regs, regs1, c, q.next, Tmp(UnReg, q.next), v, Tmp(UnReg, q.next), v);
    assert regs1[Tmp(UnReg, q.next) := v][Tmp(UnReg, q.next) := v] == regs';
  }

  /** Two new registers leave what was kept, and the parameters. */
  lemma KeptOnward(w: World, regs: Registers, regs1: Registers, lo: nat, id: nat, r1: Reg, x1: Value, r2: Reg,
                   x2: Value)
    requires Kept(regs, regs1, lo, id) && lo <= id && Params(w, regs1)
    requires r1.Tmp? && r1.id == id && r2.Tmp? && r2.id == id
    ensures Kept(regs, regs1[r1 := x1][r2 := x2], lo, id + 1) && Params(w, regs1[r1 := x1][r2 := x2])
  {
  }

  lemma FinishField(w: World, code: Code, a: nat, q: Piece, index: nat, f: string, c: nat,
                    regs: Registers, mem: Memory, regs1: Registers, mem1: Memory) returns (regs': Registers)
    requires Computes(w, code, a, q, c, regs, mem, regs1, StatePtr, mem1)
    requires index < |w.fields| && w.fields[index] == f && f in mem1
    requires At(code, a + |q.code|, FieldCode(q.next, q.reg, index))
    ensures Computes(w, code, a,
                     Piece(q.code + FieldCode(q.next, q.reg, index), q.next + 1, Tmp(FieldReg, q.next), false),
                     c, regs, mem, regs', mem1[f], mem1)
  {
    hide Run;
    var start := Running(a, regs, Contents(w.fields, mem));
    var tail := FieldCode(q.next, q.reg, index);
    RunAdd(w, code, |q.code|, 2, start);
    AtIndex(code, a + |q.code|, tail, 0);
    AtIndex(code, a + |q.code|, tail, 1);
    RunTwo(w, code, Running(a + |q.code|, regs1, Contents(w.fields, mem1)));
    regs' := regs1[Tmp(FieldPtrReg, q.next) := FieldPtr(index)][Tmp(FieldReg, q.next) := mem1[f]];
  }

  lemma {:induction false} SimAssign(w: World, code: Code, sc: Scope, c: nat, e: Expr, a: nat, regs: Registers,
                                     mem: Memory)
    returns (regs': Registers)
    requires e.Assign?
    requires Registered(w, sc) && ValueExpr(sc.structName, e) && LowerExpr(sc, c, e).Done?
    requires At(code, a, LowerExpr(sc, c, e).value.code)
    requires Params(w, regs) && Holds(w, mem) && Eval(w, e, mem).Val?
    ensures var r := Eval(w, e, mem);
            Computes(w, code, a, LowerExpr(sc, c, e).value, c, regs, mem, regs', r.v, r.mem)
    decreases e, 0
  {
    hide Run, Computes, Kept, Params, Contents, Numbered, Holds, LowerExpr;
    AssignPiece(sc, c, e);
    var Field(base, baseType, f) := e.target;
    var r, r1 := LowerExpr(sc, c, e.rhs).value, Eval(w, e.rhs, mem);
    var q, r2 := LowerExpr(sc, r.next + 1, base).value, Eval(w, base, r1.mem);
    var index := FieldIndex(sc.structName, sc.fields, baseType, f);
    AtSplit(code, a, r.code + q.code, StoreCode(r.next, r.reg, q.reg, index));
    AtSplit(code, a, r.code, q.code);
    var regs1 := SimExpr(w, code, sc, c, e.rhs, a, regs, mem);
    Computed(w, code, a, r, c, regs, mem, regs1, r1.v, r1.mem);
    var regs2 := SimExpr(w, code, sc, r.next + 1, base, a + |r.code|, regs1, r1.mem);
    Computed(w, code, a + |r.code|, q, r.next + 1, regs1, r1.mem, regs2, StatePtr, r2.mem);
    FieldOf(w, sc, baseType, f, r2.mem);
    regs' := FinishAssign(w, code, a, r, q, index, f, c, regs, mem, regs1, r1.v, r1.mem, regs2, r2.mem);
  }

  lemma ContentsUpdate(fields: seq<string>, mem: Memory, index: nat, v: Value)
    requires index < |fields| && fields[index] in mem
    requires forall i, j :: 0 <= i < j < |fields| ==> fields[i] != fields[j]
    ensures Contents(fields, mem[fields[index] := v]) == Contents(fields, mem)[index := v]
  {
    forall i | 0 <= i < |fields| && i != index
      ensures fields[i] != fields[index]
    {
      assert i < index || index < i;
    }
  }

  lemma KeptOne(before: Registers, after: Registers, lo: nat, hi: nat, r: Reg)
    requires Kept(before, after, lo, hi) && r in before && (r.Tmp? ==> r.id < lo)
    ensures r in after && after[r] == before[r]
  {
  }

  /** What two pieces kept, with one more register of a number between theirs. */
  lemma KeptThrough(w: World, regs: Registers, regs1: Registers, regs2: Registers, lo: nat, id: nat, hi: nat,
                    r: Reg, x: Value)
    requires Kept(regs, regs1, lo, id) && Kept(regs1, regs2, id + 1, hi) && lo <= id < hi && Params(w, regs2)
    requires r.Tmp? && r.id == id
    ensures Kept(regs, regs2[r := x], lo, hi) && Params(w, regs2[r := x])
  {
  }

  lemma HoldsStill(w: World, mem: Memory, f: string, v: Value)
    requires Holds(w, mem) && f in mem
    ensures Holds(w, mem[f := v])
  {
  }

  lemma FinishAssign(w: World, code: Code, a: nat, r: Piece, q: Piece, index: nat, f: string, c: nat,
                     regs: Registers, mem: Memory, regs1: Registers, v: Value, mem1: Memory,
                     regs2: Registers, mem2: Memory) returns (regs': Registers)
    requires Computes(w, code, a, r, c, regs, mem, regs1, v, mem1)
    requires Computes(w, code, a + |r.code|, q, r.next + 1, regs1, mem1, regs2, StatePtr, mem2)
    requires index < |w.fields| && w.fields[index] == f && f in mem2
    requires forall i, j :: 0 <= i < j < |w.fields| ==> w.fields[i] != w.fields[j]
    requires At(code, a + |r.code| + |q.code|, StoreCode(r.next, r.reg, q.reg, index))
    ensures Computes(w, code, a, Piece(r.code + q.code + StoreCode(r.next, r.reg, q.reg, index), q.next, r.reg, false),
                     c, regs, mem, regs', v, mem2[f := v])
  {
    hide Run, Contents, Kept, Holds, Params;
    var start := Running(a, regs, Contents(w.fields, mem));
    var tail := StoreCode(r.next, r.reg, q.reg, index);
    RunAdd(w, code, |r.code|, |q.code|, start);
    RunAdd(w, code, |r.code| + |q.code|, 2, start);
    AtIndex(code, a + |r.code| + |q.code|, tail, 0);
    AtIndex(code, a + |r.code| + |q.code|, tail, 1);
    RunTwo(w, code, Running(a + |r.code| + |q.code|, regs2, Contents(w.fields, mem2)));
    KeptOne(regs1, regs2, r.next + 1, q.next, r.reg);
    ContentsUpdate(w.fields, mem2, index, v);
    HoldsStill(w, mem2, f, v);
    regs' := regs2[Tmp(AssignPtrReg, r.next) := FieldPtr(index)];
    KeptThrough(w, regs, regs1, regs2, c, r.next, q.next, Tmp(AssignPtrReg, r.next), FieldPtr(index));
  }

  /** The three instructions that build a poll aggregate without a payload. */
  lemma SimPoll(w: World, code: Code, a: nat, p: Piece, c: nat, disc: int, dst: RegKind, regs: Registers, mem: Memory)
    returns (regs': Registers)
    requires dst != PollUndefReg && dst != PollDiscReg
    requires p.code == PollCode(c, disc, dst) && p.reg == Tmp(dst, c) && p.next == c + 1
    requires At(code, a, p.code) && Params(w, regs) && Holds(w, mem)
    ensures Computes(w, code, a, p, c, regs, mem, regs', Poll(Int(disc), Undef), mem)
  {
    hide Run;
    AtIndex(code, a, p.code, 0);
    AtIndex(code, a, p.code, 1);
    AtIndex(code, a, p.code, 2);
    RunThree(w, code, Running(a, regs, Contents(w.fields, mem)));
    regs' := regs[Tmp(PollUndefReg, c) := Poll(Undef, Undef)][Tmp(PollDiscReg, c) := Int(disc)]
             [p.reg := Poll(Int(disc), Undef)];
  }

  lemma {:induction false} SimReady(w: World, code: Code, sc: Scope, c: nat, payload: Expr, a: nat, regs: Registers,
                                    mem: Memory)
    returns (regs': Registers)
    requires Registered(w, sc) && ValueExpr(sc.structName, payload) && LowerExpr(sc, c, PollReady(Some(payload))).Done?
    requires At(code, a, LowerExpr(sc, c, PollReady(Some(payload))).value.code)
    requires Params(w, regs) && Holds(w, mem) && Eval(w, payload, mem).Val?
    ensures var r := Eval(w, payload, mem);
            Computes(w, code, a, LowerExpr(sc, c, PollReady(Some(payload))).value, c, regs, mem, regs',
                     Poll(Int(1), r.v), r.mem)
    decreases payload, 2
  {
    hide Run, Computes, Kept, Params, Contents, Numbered, Holds, LowerExpr;
    ReadyPiece(sc, c, PollReady(Some(payload)));
    var tagged := Piece(PollCode(c, 1, PollTaggedReg), c + 1, Tmp(PollTaggedReg, c), false);
    var q, r := LowerExpr(sc, c + 1, payload).value, Eval(w, payload, mem);
    AtSplit(code, a, tagged.code + q.code, [InsertValue(Tmp(PollReadyReg, c), q.reg, tagged.reg, 1)]);
    AtSplit(code, a, tagged.code, q.code);
    var regs1 := SimPoll(w, code, a, tagged, c, 1, PollTaggedReg, regs, mem);
    Computed(w, code, a, tagged, c, regs, mem, regs1, Poll(Int(1), Undef), mem);
    var regs2 := SimExpr(w, code, sc, c + 1, payload, a + |tagged.code|, regs1, mem);
    regs' := FinishReady(w, code, a, tagged, q, c, regs, mem, regs1, regs2, r.v, r.mem);
  }

  lemma KeptFurther(w: World, regs: Registers, regs1: Registers, regs2: Registers, lo: nat, hi: nat, r: Reg, x: Value)
    requires Kept(regs, regs1, lo, lo + 1) && Kept(regs1, regs2, lo + 1, hi) && lo < hi && Params(w, regs2)
    requires r.Tmp? && r.id == lo
    ensures Kept(regs, regs2[r := x], lo, hi) && Params(w, regs2[r := x])
  {
  }

  lemma FinishReady(w: World, code: Code, a: nat, tagged: Piece, q: Piece, c: nat,
                    regs: Registers, mem: Memory, regs1: Registers, regs2: Registers, v: Value, mem2: Memory)
    returns (regs': Registers)
    requires tagged.reg == Tmp(PollTaggedReg, c) && tagged.next == c + 1
    requires Computes(w, code, a, tagged, c, regs, mem, regs1, Poll(Int(1), Undef), mem)
    requires Computes(w, code, a + |tagged.code|, q, c + 1, regs1, mem, regs2, v, mem2)
    requires At(code, a + |tagged.code| + |q.code|, [InsertValue(Tmp(PollReadyReg, c), q.reg, tagged.reg, 1)])
    ensures Computes(w, code, a, Piece(tagged.code + q.code + [InsertValue(Tmp(PollReadyReg, c), q.reg, tagged.reg, 1)],
                                       q.next, Tmp(PollReadyReg, c), false),
                     c, regs, mem, regs', Poll(Int(1), v), mem2)
  {
    hide Run, Contents, Kept, Holds, Params;
    var start := Running(a, regs, Contents(w.fields, mem));
    RunAdd(w, code, |tagged.code|, |q.code|, start);
    RunAdd(w, code, |tagged.code| + |q.code|, 1, start);
    AtIndex(code, a + |tagged.code| + |q.code|, [InsertValue(Tmp(PollReadyReg, c), q.reg, tagged.reg, 1)], 0);
    RunTwo(w, code, Running(a + |tagged.code| + |q.code|, regs2, Contents(w.fields, mem2)));
    KeptOne(regs1, regs2, c + 1, q.next, tagged.reg);
    regs' := regs2[Tmp(PollReadyReg, c) := Poll(Int(1), v)];
    KeptFurther(w, regs, regs1, regs2, c, q.next, Tmp(PollReadyReg, c), Poll(Int(1), v));
  }
}
