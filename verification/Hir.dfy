/** The structured language that the emitter reads (salt-front/src/hir), with its meaning. */
module Hir {
  import opened Wrappers

  datatype Value =
    | Int(n: int)
    | Bool(b: bool)
    | StatePtr
    | FieldPtr(index: nat)
    | Unit
    | Undef
    | Poll(disc: Value, payload: Value)

  datatype BinOp =
    | Add | Sub | Mul | Div | Rem
    | Eq | Ne | Lt | Le | Gt | Ge
    | And | Or
    | BitAnd | BitOr | BitXor
    | Shl | Shr

  datatype UnOp = Not | Neg | Deref

  /** The static type of a field access's base: a (reference to a) named struct, or unknown. */
  datatype BaseType = Named(name: string) | Untyped

  datatype Expr =
    | IntLit(n: int)
    | BoolLit(b: bool)
    | Var(id: nat)
    | Binary(op: BinOp, lhs: Expr, rhs: Expr)
    | Unary(uop: UnOp, inner: Expr)
    | Field(base: Expr, baseType: BaseType, field: string)
    | Assign(target: Expr, rhs: Expr)
    | If(cond: Expr, thenBranch: Block, elseBranch: Option<Expr>)
    | BlockExpr(block: Block)
    | PollPending
    | PollReady(fields: Option<Expr>)
    | Requires(contract: Expr)
    | Ensures(contract: Expr)
    | Yield

  datatype Block = Block(stmts: seq<Stmt>, value: Option<Expr>)

  datatype Stmt =
    | Assume(e: Expr)
    | ExprStmt(e: Expr)
    | Let(init: Option<Expr>)
    | Return(result: Option<Expr>)
    | Loop(body: Block)
    | While(cond: Expr, body: Block)
    | Break
    | Continue
    | For

  /** Operations of a machine integer of the target's width. */
  datatype IntOp = IAdd | ISub | IMul | IDiv | IRem | IAnd | IOr | IXor | IShl | IShr

  /** What a run is given: the integer arithmetic (None marks undefined behaviour, such as
      division by zero), the values of the parameters, and the fields of the state struct. */
  datatype World = World(arith: (IntOp, int, int) -> Option<int>, env: map<nat, Value>, fields: seq<string>)

  /** The contents of the state struct by field name. */
  type Memory = map<string, Value>

  datatype EvalResult = Wrong | Val(v: Value, mem: Memory)

  function IntResult(r: Option<int>): Option<Value> {
    match r
    case None => None
    case Some(n) => Some(Int(n))
  }

  /** The meaning of a binary operator; None when the operands are ill-typed or the result undefined. */
  function BinMeaning(w: World, op: BinOp, a: Value, b: Value): Option<Value> {
    match (a, b)
    case (Int(x), Int(y)) => (
      match op
      case Add => IntResult(w.arith(IAdd, x, y))
      case Sub => IntResult(w.arith(ISub, x, y))
      case Mul => IntResult(w.arith(IMul, x, y))
      case Div => IntResult(w.arith(IDiv, x, y))
      case Rem => IntResult(w.arith(IRem, x, y))
      case Eq => Some(Bool(x == y))
      case Ne => Some(Bool(x != y))
      case Lt => Some(Bool(x < y))
      case Le => Some(Bool(x <= y))
      case Gt => Some(Bool(x > y))
      case Ge => Some(Bool(x >= y))
      case And => None
      case Or => None
      case BitAnd => IntResult(w.arith(IAnd, x, y))
      case BitOr => IntResult(w.arith(IOr, x, y))
      case BitXor => IntResult(w.arith(IXor, x, y))
      case Shl => IntResult(w.arith(IShl, x, y))
      case Shr => IntResult(w.arith(IShr, x, y))
    )
    case (Bool(x), Bool(y)) => (
      match op
      case Eq => Some(Bool(x == y))
      case Ne => Some(Bool(x != y))
      case And => Some(Bool(x && y))
      case Or => Some(Bool(x || y))
      case BitAnd => Some(Bool(x && y))
      case BitOr => Some(Bool(x || y))
      case BitXor => Some(Bool(x != y))
      case _ => None
    )
    case _ => None
  }

  /** The meaning of a unary operator; a pointer into the state struct yields what the field holds. */
  function UnMeaning(w: World, op: UnOp, a: Value, mem: Memory): Option<Value> {
    match (op, a)
    case (Not, Bool(x)) => Some(Bool(!x))
    case (Neg, Int(x)) => IntResult(w.arith(ISub, 0, x))
    case (Deref, FieldPtr(i)) => if i < |w.fields| && w.fields[i] in mem then Some(mem[w.fields[i]]) else None
    case _ => None
  }

  /** The value of an expression, operands left to right; an assignment evaluates its right-hand
      side before the base of its target. Statement-like expressions have no value here. */
  function Eval(w: World, e: Expr, mem: Memory): EvalResult {
    match e
    case IntLit(n) => Val(Int(n), mem)
    case BoolLit(b) => Val(Bool(b), mem)
    case Var(id) => if id in w.env then Val(w.env[id], mem) else Wrong
    case Binary(op, lhs, rhs) => (
      match Eval(w, lhs, mem)
      case Wrong => Wrong
      case Val(a, mem1) =>
        match Eval(w, rhs, mem1)
        case Wrong => Wrong
        case Val(b, mem2) =>
          match BinMeaning(w, op, a, b)
          case None => Wrong
          case Some(v) => Val(v, mem2)
    )
    case Unary(op, inner) => (
      match Eval(w, inner, mem)
      case Wrong => Wrong
      case Val(a, mem1) =>
        match UnMeaning(w, op, a, mem1)
        case None => Wrong
        case Some(v) => Val(v, mem1)
    )
    case Field(base, _, f) => (
      match Eval(w, base, mem)
      case Wrong => Wrong
      case Val(p, mem1) => if p == StatePtr && f in mem1 then Val(mem1[f], mem1) else Wrong
    )
    case Assign(target, rhs) => (
      match Eval(w, rhs, mem)
      case Wrong => Wrong
      case Val(v, mem1) =>
        match target
        case Field(base, _, f) => (
          match Eval(w, base, mem1)
          case Wrong => Wrong
          case Val(p, mem2) => if p == StatePtr && f in mem2 then Val(v, mem2[f := v]) else Wrong
        )
        case _ => Wrong
    )
    case PollPending => Val(Poll(Int(0), Undef), mem)
    case PollReady(None) => Val(Poll(Int(1), Undef), mem)
    case PollReady(Some(payload)) => (
      match Eval(w, payload, mem)
      case Wrong => Wrong
      case Val(v, mem1) => Val(Poll(Int(1), v), mem1)
    )
    case Requires(_) => Val(Unit, mem)
    case Ensures(_) => Val(Unit, mem)
    case _ => Wrong
  }

  /** How a statement ends. Timeout means that the given number of loop iterations was not enough. */
  datatype Outcome =
    | Timeout
    | GoesWrong
    | Normal(mem: Memory)
    | Broke(mem: Memory)
    | Continued(mem: Memory)
    | Returned(result: Option<Value>, mem: Memory)

  function Discard(r: EvalResult): Outcome {
    match r
    case Wrong => GoesWrong
    case Val(_, mem) => Normal(mem)
  }

  /** An expression run for its effect: control flow enters its branches. */
  function ExecExpr(w: World, fuel: nat, e: Expr, mem: Memory): Outcome
    decreases fuel, e
  {
    match e
    case If(cond, thenBranch, elseBranch) => (
      match Eval(w, cond, mem)
      case Val(Bool(true), mem1) => ExecBlock(w, fuel, thenBranch, mem1)
      case Val(Bool(false), mem1) => (
        match elseBranch
        case None => Normal(mem1)
        case Some(other) => ExecExpr(w, fuel, other, mem1)
      )
      case _ => GoesWrong
    )
    case BlockExpr(block) => ExecBlock(w, fuel, block, mem)
    case _ => Discard(Eval(w, e, mem))
  }

  function ExecBlock(w: World, fuel: nat, block: Block, mem: Memory): Outcome
    decreases fuel, block
  {
    match ExecStmts(w, fuel, block.stmts, mem)
    case Normal(mem1) => (
      match block.value
      case None => Normal(mem1)
      case Some(e) => ExecExpr(w, fuel, e, mem1)
    )
    case other => other
  }

  function ExecStmts(w: World, fuel: nat, stmts: seq<Stmt>, mem: Memory): Outcome
    decreases fuel, stmts
  {
    if stmts == [] then Normal(mem)
    else
      match ExecStmt(w, fuel, stmts[0], mem)
      case Normal(mem1) => ExecStmts(w, fuel, stmts[1..], mem1)
      case other => other
  }

  function ExecStmt(w: World, fuel: nat, s: Stmt, mem: Memory): Outcome
    decreases fuel, s
  {
    match s
    case Assume(_) => Normal(mem)
    case ExprStmt(e) => ExecExpr(w, fuel, e, mem)
    case Let(None) => Normal(mem)
    case Let(Some(e)) => Discard(Eval(w, e, mem))
    case Return(None) => Returned(None, mem)
    case Return(Some(e)) => (
      match Eval(w, e, mem)
      case Wrong => GoesWrong
      case Val(v, mem1) => Returned(Some(v), mem1)
    )
    case Loop(body) => AfterBody(w, fuel, s, ExecBlock(w, fuel, body, mem))
    case While(cond, body) => (
      match Eval(w, cond, mem)
      case Val(Bool(true), mem1) => AfterBody(w, fuel, s, ExecBlock(w, fuel, body, mem1))
      case Val(Bool(false), mem1) => Normal(mem1)
      case _ => GoesWrong
    )
    case Break => Broke(mem)
    case Continue => Continued(mem)
    case _ => GoesWrong
  }

  /** What follows one execution of a loop's body: the next iteration, or the end of the loop. */
  function AfterBody(w: World, fuel: nat, s: Stmt, body: Outcome): Outcome
    decreases fuel, s, 0
  {
    match body
    case Broke(mem) => Normal(mem)
    case Normal(mem) => if fuel == 0 then Timeout else ExecStmt(w, fuel - 1, s, mem)
    case Continued(mem) => if fuel == 0 then Timeout else ExecStmt(w, fuel - 1, s, mem)
    case other => other
  }
}
