/** The emitted language: a flat sequence of instructions and block labels, run by program counter. */
module Mlir {
  import opened Wrappers
  import opened Hir

  datatype RegKind =
    | IntReg | BoolReg | BinReg | UnReg | TrueReg | ZeroReg
    | FieldPtrReg | FieldReg | AssignPtrReg
    | PollUndefReg | PollDiscReg | PollTaggedReg | PollPendingReg | PollReadyReg

  /** `%v3` is Arg(3); `%binop_7` is Tmp(BinReg, 7). UnitReg is the name `%unit`, which nothing defines. */
  datatype Reg = Arg(id: nat) | Tmp(kind: RegKind, id: nat) | UnitReg

  datatype LabelKind =
    | LoopHeader | LoopExit | WhileHeader | WhileBody | WhileExit | ThenBlock | ElseBlock | MergeBlock

  datatype Label = Label(kind: LabelKind, id: nat)

  datatype ArithOp =
    | CmpEq | CmpNe | CmpSlt | CmpSle | CmpSgt | CmpSge
    | AddI | SubI | MulI | DivSI | RemSI | AndI | OrI | XorI | ShlI | ShrSI

  datatype Instr =
    | Const(dst: Reg, value: Value)
    | Arith(dst: Reg, op: ArithOp, a: Reg, b: Reg)
    | Gep(dst: Reg, base: Reg, index: nat)
    | Load(dst: Reg, ptr: Reg)
    | Store(src: Reg, ptr: Reg)
    | PollUndef(dst: Reg)
    | InsertValue(dst: Reg, elem: Reg, agg: Reg, index: nat)
    | Br(target: Label)
    | CondBr(cond: Reg, ifTrue: Label, ifFalse: Label)
    | Ret(result: Option<Reg>)
    | LabelDef(name: Label)
  {
    predicate Terminator() {
      Br? || CondBr? || Ret?
    }
  }

  type Code = seq<Instr>
  type Registers = map<Reg, Value>

  /** Stuck covers undefined behaviour, undefined names, and falling into a label or off the end,
      which no well-formed block does. */
  datatype Config =
    | Running(pc: nat, regs: Registers, mem: seq<Value>)
    | Halted(result: Option<Value>, mem: seq<Value>)
    | Stuck

  function ArithMeaning(w: World, op: ArithOp, a: Value, b: Value): Option<Value> {
    match (a, b)
    case (Int(x), Int(y)) => (
      match op
      case CmpEq => Some(Bool(x == y))
      case CmpNe => Some(Bool(x != y))
      case CmpSlt => Some(Bool(x < y))
      case CmpSle => Some(Bool(x <= y))
      case CmpSgt => Some(Bool(x > y))
      case CmpSge => Some(Bool(x >= y))
      case AddI => IntResult(w.arith(IAdd, x, y))
      case SubI => IntResult(w.arith(ISub, x, y))
      case MulI => IntResult(w.arith(IMul, x, y))
      case DivSI => IntResult(w.arith(IDiv, x, y))
      case RemSI => IntResult(w.arith(IRem, x, y))
      case AndI => IntResult(w.arith(IAnd, x, y))
      case OrI => IntResult(w.arith(IOr, x, y))
      case XorI => IntResult(w.arith(IXor, x, y))
      case ShlI => IntResult(w.arith(IShl, x, y))
      case ShrSI => IntResult(w.arith(IShr, x, y))
    )
    case (Bool(x), Bool(y)) => (
      match op
      case CmpEq => Some(Bool(x == y))
      case CmpNe => Some(Bool(x != y))
      case AndI => Some(Bool(x && y))
      case OrI => Some(Bool(x || y))
      case XorI => Some(Bool(x != y))
      case _ => None
    )
    case _ => None
  }

  /** Field 0 of a poll aggregate is its discriminant, field 1 its payload. */
  function Insert(agg: Value, index: nat, elem: Value): Option<Value> {
    if !agg.Poll? then None
    else if index == 0 then Some(agg.(disc := elem))
    else if index == 1 then Some(agg.(payload := elem))
    else None
  }

  /** The position of the first definition of a label, or the code's length when there is none. */
  function Find(code: Code, l: Label): (i: nat)
    ensures i <= |code|
    ensures i < |code| ==> code[i] == LabelDef(l)
    ensures forall j :: 0 <= j < i ==> code[j] != LabelDef(l)
  {
    if code == [] || code[0] == LabelDef(l) then 0
    else
      var rest := Find(code[1..], l);
      assert forall j :: 0 < j <= rest ==> code[j] == code[1..][j - 1] || j == |code|;
      rest + 1
  }

  function Jump(code: Code, l: Label, regs: Registers, mem: seq<Value>): Config {
    var i := Find(code, l);
    if i < |code| then Running(i + 1, regs, mem) else Stuck
  }

  function Define(v: Option<Value>, dst: Reg, pc: nat, regs: Registers, mem: seq<Value>): Config {
    match v
    case None => Stuck
    case Some(x) => Running(pc + 1, regs[dst := x], mem)
  }

  function Step(w: World, code: Code, cfg: Config): Config {
    match cfg
    case Running(pc, regs, mem) => if pc < |code| then Execute(w, code, code[pc], pc, regs, mem) else Stuck
    case _ => cfg
  }

  function Execute(w: World, code: Code, ins: Instr, pc: nat, regs: Registers, mem: seq<Value>): Config {
    match ins
    case Const(dst, v) => Define(Some(v), dst, pc, regs, mem)
    case Arith(dst, op, a, b) =>
      if a in regs && b in regs then Define(ArithMeaning(w, op, regs[a], regs[b]), dst, pc, regs, mem) else Stuck
    case Gep(dst, base, index) =>
      if base in regs && regs[base] == StatePtr then Define(Some(FieldPtr(index)), dst, pc, regs, mem) else Stuck
    case Load(dst, ptr) =>
      if ptr in regs && regs[ptr].FieldPtr? && regs[ptr].index < |mem|
      then Define(Some(mem[regs[ptr].index]), dst, pc, regs, mem) else Stuck
    case Store(src, ptr) =>
      if src in regs && ptr in regs && regs[ptr].FieldPtr? && regs[ptr].index < |mem|
      then Running(pc + 1, regs, mem[regs[ptr].index := regs[src]]) else Stuck
    case PollUndef(dst) => Define(Some(Poll(Undef, Undef)), dst, pc, regs, mem)
    case InsertValue(dst, elem, agg, index) =>
      if elem in regs && agg in regs then Define(Insert(regs[agg], index, regs[elem]), dst, pc, regs, mem) else Stuck
    case Br(l) => Jump(code, l, regs, mem)
    case CondBr(c, l1, l2) =>
      if c in regs && regs[c].Bool? then Jump(code, if regs[c].b then l1 else l2, regs, mem) else Stuck
    case Ret(None) => Halted(None, mem)
    case Ret(Some(r)) => if r in regs then Halted(Some(regs[r]), mem) else Stuck
    case LabelDef(_) => Stuck
  }

  function Run(w: World, code: Code, n: nat, cfg: Config): Config {
    if n == 0 then cfg else Run(w, code, n - 1, Step(w, code, cfg))
  }

  lemma {:induction false} RunAdd(w: World, code: Code, m: nat, n: nat, cfg: Config)
    ensures Run(w, code, m + n, cfg) == Run(w, code, n, Run(w, code, m, cfg))
  {
    if m != 0 {
      RunAdd(w, code, m - 1, n, Step(w, code, cfg));
    }
  }

  lemma {:induction false} FinishedStays(w: World, code: Code, n: nat, cfg: Config)
    requires !cfg.Running?
    ensures Run(w, code, n, cfg) == cfg
  {
    if n != 0 {
      FinishedStays(w, code, n - 1, cfg);
    }
  }

  /** Running is deterministic and halting is final, so two halted runs of one program agree. */
  lemma HaltedOnce(w: World, code: Code, m: nat, n: nat, cfg: Config)
    requires !Run(w, code, m, cfg).Running?
    ensures n >= m ==> Run(w, code, n, cfg) == Run(w, code, m, cfg)
    ensures !Run(w, code, n, cfg).Running? ==> Run(w, code, n, cfg) == Run(w, code, m, cfg)
  {
    if n >= m {
      RunAdd(w, code, m, n - m, cfg);
      FinishedStays(w, code, n - m, Run(w, code, m, cfg));
    } else if !Run(w, code, n, cfg).Running? {
      RunAdd(w, code, n, m - n, cfg);
      FinishedStays(w, code, m - n, Run(w, code, n, cfg));
    }
  }
}
