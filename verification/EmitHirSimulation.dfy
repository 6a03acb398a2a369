/** The emitted control flow does what the structured statements mean, run for run. */
module EmitHirSimulation {
  import opened Wrappers
  import opened Hir
  import opened Mlir
  import opened EmitHir
  import opened EmitHirNames
  import opened EmitHirValues

  // The fragment that the emitter handles. EmitHirExactness says what becomes of an `else` that is
  // no block and of a trailing value, which are dropped.

  /** A value whose evaluation stores nothing. */
  predicate Pure(e: Expr) {
    match e
    case Binary(_, lhs, rhs) => Pure(lhs) && Pure(rhs)
    case Unary(op, inner) => Pure(inner)
    case Field(base, _, _) => Pure(base)
    case Assign(_, _) => false
    case If(_, _, _) => false
    case BlockExpr(_) => false
    case PollReady(Some(payload)) => Pure(payload)
    case _ => true
  }

  predicate EmittableExpr(structName: string, e: Expr, inLoop: bool)
    decreases e
  {
    match e
    case If(cond, thenBranch, elseBranch) =>
      && ValueExpr(structName, cond)
      && EmittableBlock(structName, thenBranch, inLoop)
      && (elseBranch.None?
          || (elseBranch.value.BlockExpr? && EmittableBlock(structName, elseBranch.value.block, inLoop)))
    case BlockExpr(block) => EmittableBlock(structName, block, inLoop)
    case Requires(_) => true
    case Ensures(_) => true
    case _ => ValueExpr(structName, e)
  }

  predicate EmittableBlock(structName: string, block: Block, inLoop: bool)
    decreases block
  {
    EmittableStmts(structName, block.stmts, inLoop) && (block.value.Some? ==> Pure(block.value.value))
  }

  predicate EmittableStmts(structName: string, stmts: seq<Stmt>, inLoop: bool)
    decreases stmts
  {
    stmts == [] || (EmittableStmt(structName, stmts[0], inLoop) && EmittableStmts(structName, stmts[1..], inLoop))
  }

  predicate EmittableStmt(structName: string, s: Stmt, inLoop: bool)
    decreases s
  {
    match s
    case Assume(_) => true
    case ExprStmt(e) => EmittableExpr(structName, e, inLoop)
    case Let(init) => init.Some? ==> ValueExpr(structName, init.value)
    case Return(None) => true
    case Return(Some(e)) => ValueExpr(structName, e)
    case Loop(body) => EmittableBlock(structName, body, true)
    case While(cond, body) => ValueExpr(structName, cond) && EmittableBlock(structName, body, true)
    case Break => inLoop
    case Continue => inLoop
    case _ => false
  }

  /** Where a piece goes on when it is neither left nor returned from. */
  datatype Exit = Through(pc: nat) | Branch(target: Label)

  function Land(w: World, code: Code, exit: Exit, regs: Registers, mem: Memory): Config {
    match exit
    case Through(pc) => Running(pc, regs, Contents(w.fields, mem))
    case Branch(l) => Jump(code, l, regs, Contents(w.fields, mem))
  }

  ghost predicate Lands(w: World, code: Code, start: Config, n: nat, exit: Exit, regs: Registers, mem: Memory) {
    && Run(w, code, n, start) == Land(w, code, exit, regs, mem)
    && (exit.Branch? ==> n >= 1)
    && Params(w, regs) && Holds(w, mem)
  }

  /** The machine's `n` steps from `start` match the structured outcome `o`. */
  ghost predicate Follows(w: World, code: Code, sc: Scope, start: Config, fuel: nat, o: Outcome, exit: Exit,
                          n: nat, regs: Registers)
  {
    match o
    case Timeout => n >= fuel && Run(w, code, n, start).Running?
    case GoesWrong => true
    case Normal(mem) => Lands(w, code, start, n, exit, regs, mem)
    case Broke(mem) =>
      sc.breaks != [] && Lands(w, code, start, n, Branch(sc.breaks[|sc.breaks| - 1]), regs, mem)
    case Continued(mem) =>
      sc.continues != [] && Lands(w, code, start, n, Branch(sc.continues[|sc.continues| - 1]), regs, mem)
    case Returned(v, mem) => Run(w, code, n, start) == Halted(v, Contents(w.fields, mem))
  }

  /** Steps taken before a match make a match from further back. */
  lemma After(w: World, code: Code, sc: Scope, start: Config, k: nat, mid: Config, fuel: nat, o: Outcome,
              exit: Exit, n: nat, regs: Registers)
    requires Run(w, code, k, start) == mid
    requires Follows(w, code, sc, mid, fuel, o, exit, n, regs)
    ensures Follows(w, code, sc, start, fuel, o, exit, k + n, regs)
  {
    RunAdd(w, code, k, n, start);
  }

  /** A branch to a label in place is a fall through to the position after it. */
  lemma Arrive(w: World, code: Code, sc: Scope, start: Config, fuel: nat, o: Outcome, l: Label, at: nat,
               n: nat, regs: Registers)
    requires Distinct(code) && at < |code| && code[at] == LabelDef(l)
    requires Follows(w, code, sc, start, fuel, o, Branch(l), n, regs)
    ensures Follows(w, code, sc, start, fuel, o, Through(at + 1), n, regs)
  {
    FindLabel(code, at);
  }

  lemma JumpTo(code: Code, l: Label, at: nat, regs: Registers, mem: seq<Value>)
    requires Distinct(code) && at < |code| && code[at] == LabelDef(l)
    ensures Jump(code, l, regs, mem) == Running(at + 1, regs, mem)
  {
    FindLabel(code, at);
  }

  lemma OneStep(w: World, code: Code, cfg: Config)
    ensures Run(w, code, 1, cfg) == Step(w, code, cfg)
    ensures Run(w, code, 0, cfg) == cfg
  {
    RunTwo(w, code, cfg);
  }

  /** A pure expression leaves the state as it is. */
  lemma {:induction false} PureKeeps(w: World, e: Expr, mem: Memory)
    requires Pure(e)
    ensures Eval(w, e, mem).Val? ==> Eval(w, e, mem).mem == mem
  {
    match e
    case Binary(_, lhs, rhs) =>
      PureKeeps(w, lhs, mem);
      PureKeeps(w, rhs, mem);
    case Unary(_, inner) =>
      PureKeeps(w, inner, mem);
    case Field(base, _, _) =>
      PureKeeps(w, base, mem);
    case PollReady(Some(payload)) =>
      PureKeeps(w, payload, mem);
    case _ =>
  }

  /** What is assumed where a piece is run. */
  ghost predicate Ready(w: World, code: Code, sc: Scope, inLoop: bool, regs: Registers, mem: Memory) {
    && Registered(w, sc) && Distinct(code)
    && (inLoop ==> sc.breaks != [] && sc.continues != [])
    && Params(w, regs) && Holds(w, mem)
  }

  lemma {:induction false} SimStmts(w: World, code: Code, sc: Scope, c: nat, stmts: seq<Stmt>, inLoop: bool, fuel: nat,
                                    a: nat, regs: Registers, mem: Memory) returns (n: nat, regs': Registers)
    requires Ready(w, code, sc, inLoop, regs, mem)
    requires EmittableStmts(sc.structName, stmts, inLoop) && LowerStmts(sc, c, stmts).Done?
    requires At(code, a, LowerStmts(sc, c, stmts).value.code)
    ensures var p, o := LowerStmts(sc, c, stmts).value, ExecStmts(w, fuel, stmts, mem);
            && Follows(w, code, sc, Running(a, regs, Contents(w.fields, mem)), fuel, o, Through(a + |p.code|), n, regs')
            && (p.ends ==> !o.Normal?)
    decreases fuel, stmts, 0
  {
    hide Run, Params, Holds, Contents, Distinct, Registered, At, LowerStmt, EmittableStmt, ExecStmt;
    var start := Running(a, regs, Contents(w.fields, mem));
    if stmts == [] {
      n, regs' := 0, regs;
      OneStep(w, code, start);
    } else {
      var p := LowerStmt(sc, c, stmts[0]).value;
      if p.ends {
        n, regs' := SimStmt(w, code, sc, c, stmts[0], inLoop, fuel, a, regs, mem);
      } else {
        var q := LowerStmts(sc, p.next, stmts[1..]).value;
        AtSplit(code, a, p.code, q.code);
        var n1, regs1 := SimStmt(w, code, sc, c, stmts[0], inLoop, fuel, a, regs, mem);
        var o := ExecStmt(w, fuel, stmts[0], mem);
        if o.Normal? {
          var n2;
          n2, regs' := SimStmts(w, code, sc, p.next, stmts[1..], inLoop, fuel, a + |p.code|, regs1, o.mem);
          n := n1 + n2;
          After(w, code, sc, start, n1, Running(a + |p.code|, regs1, Contents(w.fields, o.mem)), fuel,
                ExecStmts(w, fuel, stmts[1..], o.mem), Through(a + |p.code| + |q.code|), n2, regs');
        } else {
          n, regs' := n1, regs1;
        }
      }
    }
  }

  /** A block's trailing value, never emitted, changes nothing when it is pure. */
  lemma BlockIsStmts(w: World, sc: Scope, fuel: nat, block: Block, inLoop: bool, mem: Memory)
    requires EmittableBlock(sc.structName, block, inLoop)
    ensures ExecBlock(w, fuel, block, mem) == ExecStmts(w, fuel, block.stmts, mem)
            || ExecBlock(w, fuel, block, mem) == GoesWrong
  {
    var o := ExecStmts(w, fuel, block.stmts, mem);
    if o.Normal? && block.value.Some? {
      PureKeeps(w, block.value.value, o.mem);
    }
  }

  /** An arm entered at its label ends by branching to `after`. */
  lemma {:induction false} SimArm(w: World, code: Code, sc: Scope, c: nat, block: Block, name: Label, after: Label,
                                  inLoop: bool, fuel: nat, a: nat, regs: Registers, mem: Memory)
    returns (n: nat, regs': Registers)
    requires Ready(w, code, sc, inLoop, regs, mem)
    requires EmittableBlock(sc.structName, block, inLoop) && LowerArm(sc, c, block, name, after).Done?
    requires At(code, a, LowerArm(sc, c, block, name, after).value.code)
    ensures Follows(w, code, sc, Running(a + 1, regs, Contents(w.fields, mem)), fuel, ExecBlock(w, fuel, block, mem),
                    Branch(after), n, regs')
    decreases fuel, block, 1
  {
    hide Run, Params, Holds, Contents, Distinct, Registered, ExecStmts, ExecBlock, LowerStmts, EmittableStmts, Jump;
    var p := LowerStmts(sc, c, block.stmts).value;
    var close: Code := if p.ends then [] else [Br(after)];
    AtSplit(code, a, [LabelDef(name)] + p.code, close);
    AtSplit(code, a, [LabelDef(name)], p.code);
    var n1, regs1 := SimStmts(w, code, sc, c, block.stmts, inLoop, fuel, a + 1, regs, mem);
    BlockIsStmts(w, sc, fuel, block, inLoop, mem);
    var o := ExecStmts(w, fuel, block.stmts, mem);
    if !p.ends {
      AtIndex(code, a + 1 + |p.code|, close, 0);
    }
    n := CloseArm(w, code, sc, Running(a + 1, regs, Contents(w.fields, mem)), fuel, o, a + 1 + |p.code|, after, n1,
                  regs1);
    regs' := regs1;
  }

  lemma CloseArm(w: World, code: Code, sc: Scope, start: Config, fuel: nat, o: Outcome, pc: nat, after: Label,
                 n1: nat, regs: Registers) returns (n: nat)
    requires Follows(w, code, sc, start, fuel, o, Through(pc), n1, regs)
    requires o.Normal? ==> pc < |code| && code[pc] == Br(after)
    ensures Follows(w, code, sc, start, fuel, o, Branch(after), n, regs)
  {
    hide Run, Params, Holds, Contents, Jump;
    n := n1;
    if o.Normal? {
      OneStep(w, code, Running(pc, regs, Contents(w.fields, o.mem)));
      RunAdd(w, code, n1, 1, start);
      n := n1 + 1;
    }
  }

  lemma {:induction false} SimStmt(w: World, code: Code, sc: Scope, c: nat, s: Stmt, inLoop: bool, fuel: nat,
                                   a: nat, regs: Registers, mem: Memory) returns (n: nat, regs': Registers)
    requires Ready(w, code, sc, inLoop, regs, mem)
    requires EmittableStmt(sc.structName, s, inLoop) && LowerStmt(sc, c, s).Done?
    requires At(code, a, LowerStmt(sc, c, s).value.code)
    ensures var p, o := LowerStmt(sc, c, s).value, ExecStmt(w, fuel, s, mem);
            && Follows(w, code, sc, Running(a, regs, Contents(w.fields, mem)), fuel, o, Through(a + |p.code|), n, regs')
            && (p.ends ==> !o.Normal?)
    decreases fuel, s, 3
  {
    hide Run, Params, Holds, Contents, Distinct, Registered, LowerExpr, LowerArm, ExecBlock, EmittableBlock, Follows;
    hide Jump;
    var p := LowerStmt(sc, c, s).value;
    var start := Running(a, regs, Contents(w.fields, mem));
    match s {
      case ExprStmt(e) =>
        n, regs' := SimEffect(w, code, sc, c, e, inLoop, fuel, a, regs, mem);
      case Let(Some(e)) =>
        n, regs' := SimValue(w, code, sc, c, e, fuel, a, regs, mem);
        ValueHasNoFlow(w, sc, fuel, e, mem);
      case Return(_) =>
        n, regs' := SimReturn(w, code, sc, c, s, inLoop, fuel, a, regs, mem);
      case Loop(body) =>
        var header := Label(LoopHeader, c);
        var b := LoopCode(sc, c, s);
        AtIndex(code, a, p.code, 0);
        AtIndex(code, a, p.code, 1);
        OneStep(w, code, start);
        JumpTo(code, header, a + 1, regs, Contents(w.fields, mem));
        var m;
        m, regs' := SimIteration(w, code, sc, c, s, inLoop, fuel, a, regs, mem);
        After(w, code, sc, start, 1, Running(a + 2, regs, Contents(w.fields, mem)), fuel, ExecStmt(w, fuel, s, mem),
              Through(a + |p.code|), m, regs');
        n := 1 + m;
      case While(cond, body) =>
        var header := Label(WhileHeader, c);
        AtIndex(code, a, p.code, 0);
        AtIndex(code, a, p.code, 1);
        OneStep(w, code, start);
        JumpTo(code, header, a + 1, regs, Contents(w.fields, mem));
        var m;
        m, regs' := SimTest(w, code, sc, c, s, inLoop, fuel, a, regs, mem);
        After(w, code, sc, start, 1, Running(a + 2, regs, Contents(w.fields, mem)), fuel, ExecStmt(w, fuel, s, mem),
              Through(a + |p.code|), m, regs');
        n := 1 + m;
      case _ =>
        n, regs' := SimJump(w, code, sc, c, s, inLoop, fuel, a, regs, mem);
    }
  }

  lemma SimJump(w: World, code: Code, sc: Scope, c: nat, s: Stmt, inLoop: bool, fuel: nat,
                a: nat, regs: Registers, mem: Memory) returns (n: nat, regs': Registers)
    requires (s.Assume? || s == Let(None) || s.Break? || s.Continue?) && Ready(w, code, sc, inLoop, regs, mem)
    requires EmittableStmt(sc.structName, s, inLoop) && LowerStmt(sc, c, s).Done?
    requires At(code, a, LowerStmt(sc, c, s).value.code)
    ensures Follows(w, code, sc, Running(a, regs, Contents(w.fields, mem)), fuel, ExecStmt(w, fuel, s, mem),
                    Through(a + |LowerStmt(sc, c, s).value.code|), n, regs')
    ensures LowerStmt(sc, c, s).value.ends ==> !ExecStmt(w, fuel, s, mem).Normal?
  {
    hide Run, Params, Holds, Contents, Distinct, Registered;
    var p := LowerStmt(sc, c, s).value;
    OneStep(w, code, Running(a, regs, Contents(w.fields, mem)));
    n, regs' := |p.code|, regs;
    if s.Break? || s.Continue? {
      AtIndex(code, a, p.code, 0);
    }
  }

  lemma ValueHasNoFlow(w: World, sc: Scope, fuel: nat, e: Expr, mem: Memory)
    requires ValueExpr(sc.structName, e)
    ensures ExecExpr(w, fuel, e, mem) == Discard(Eval(w, e, mem))
  {
  }

  lemma SimReturn(w: World, code: Code, sc: Scope, c: nat, s: Stmt, inLoop: bool, fuel: nat,
                  a: nat, regs: Registers, mem: Memory) returns (n: nat, regs': Registers)
    requires s.Return? && Ready(w, code, sc, inLoop, regs, mem)
    requires EmittableStmt(sc.structName, s, inLoop) && LowerStmt(sc, c, s).Done?
    requires At(code, a, LowerStmt(sc, c, s).value.code)
    ensures Follows(w, code, sc, Running(a, regs, Contents(w.fields, mem)), fuel, ExecStmt(w, fuel, s, mem),
                    Through(a + |LowerStmt(sc, c, s).value.code|), n, regs')
  {
    hide Run, Holds, Contents, Distinct, Registered, LowerExpr, Kept;
    var p := LowerStmt(sc, c, s).value;
    var start := Running(a, regs, Contents(w.fields, mem));
    n, regs' := 1, regs;
    if s.result.None? {
      AtIndex(code, a, p.code, 0);
      OneStep(w, code, start);
    } else if Eval(w, s.result.value, mem).Val? {
      var q, r := LowerExpr(sc, c, s.result.value).value, Eval(w, s.result.value, mem);
      AtSplit(code, a, q.code, [Ret(Some(q.reg))]);
      regs' := SimExpr(w, code, sc, c, s.result.value, a, regs, mem);
      AtIndex(code, a + |q.code|, [Ret(Some(q.reg))], 0);
      OneStep(w, code, Running(a + |q.code|, regs', Contents(w.fields, r.mem)));
      RunAdd(w, code, |q.code|, 1, start);
      n := |q.code| + 1;
    }
  }

  lemma {:induction false} SimEffect(w: World, code: Code, sc: Scope, c: nat, e: Expr, inLoop: bool, fuel: nat,
                                     a: nat, regs: Registers, mem: Memory) returns (n: nat, regs': Registers)
    requires Ready(w, code, sc, inLoop, regs, mem)
    requires EmittableExpr(sc.structName, e, inLoop) && LowerExpr(sc, c, e).Done?
    requires At(code, a, LowerExpr(sc, c, e).value.code)
    ensures Follows(w, code, sc, Running(a, regs, Contents(w.fields, mem)), fuel, ExecExpr(w, fuel, e, mem),
                    Through(a + |LowerExpr(sc, c, e).value.code|), n, regs')
    decreases fuel, e, 2
  {
    hide Run, Params, Holds, Contents, Distinct, Registered, Kept, LowerIf;
    var p := LowerExpr(sc, c, e).value;
    var start := Running(a, regs, Contents(w.fields, mem));
    match e {
      case If(_, _, _) =>
        n, regs' := SimIf(w, code, sc, c, e, inLoop, fuel, a, regs, mem);
      case BlockExpr(block) =>
        BlockIsStmts(w, sc, fuel, block, inLoop, mem);
        n, regs' := SimStmts(w, code, sc, c, block.stmts, inLoop, fuel, a, regs, mem);
      case Requires(_) =>
        n, regs' := 0, regs;
        OneStep(w, code, start);
      case Ensures(_) =>
        n, regs' := 0, regs;
        OneStep(w, code, start);
      case _ =>
        n, regs' := SimValue(w, code, sc, c, e, fuel, a, regs, mem);
    }
  }

  lemma SimValue(w: World, code: Code, sc: Scope, c: nat, e: Expr, fuel: nat, a: nat, regs: Registers, mem: Memory)
    returns (n: nat, regs': Registers)
    requires ValueExpr(sc.structName, e) && LowerExpr(sc, c, e).Done? && At(code, a, LowerExpr(sc, c, e).value.code)
    requires Registered(w, sc) && Params(w, regs) && Holds(w, mem)
    ensures Follows(w, code, sc, Running(a, regs, Contents(w.fields, mem)), fuel, ExecExpr(w, fuel, e, mem),
                    Through(a + |LowerExpr(sc, c, e).value.code|), n, regs')
  {
    hide Run, Params, Holds, Contents, Registered, Kept, LowerExpr, Eval, At;
    n, regs' := |LowerExpr(sc, c, e).value.code|, regs;
    if Eval(w, e, mem).Val? {
      regs' := SimExpr(w, code, sc, c, e, a, regs, mem);
    }
  }

  lemma {:induction false} SimIf(w: World, code: Code, sc: Scope, c: nat, e: Expr, inLoop: bool, fuel: nat,
                                 a: nat, regs: Registers, mem: Memory) returns (n: nat, regs': Registers)
    requires e.If? && Ready(w, code, sc, inLoop, regs, mem)
    requires EmittableExpr(sc.structName, e, inLoop) && LowerExpr(sc, c, e).Done?
    requires At(code, a, LowerExpr(sc, c, e).value.code)
    ensures Follows(w, code, sc, Running(a, regs, Contents(w.fields, mem)), fuel, ExecExpr(w, fuel, e, mem),
                    Through(a + |LowerExpr(sc, c, e).value.code|), n, regs')
    decreases fuel, e, 1
  {
    hide Run, Params, Holds, Contents, Distinct, Registered, Kept, LowerExpr, LowerIf;
    IfPiece(sc, c, e);
    var p, r := LowerExpr(sc, c, e.cond).value, Eval(w, e.cond, mem);
    var q := LowerIf(sc, p.next, p.reg, e).value;
    n, regs' := 0, regs;
    if r.Val? && r.v.Bool? {
      AtSplit(code, a, p.code, q.code);
      var regs1 := SimExpr(w, code, sc, c, e.cond, a, regs, mem);
      var m;
      m, regs' := SimBranches(w, code, sc, p.next, p.reg, e, r.v.b, inLoop, fuel, a + |p.code|, regs1, r.mem);
      After(w, code, sc, Running(a, regs, Contents(w.fields, mem)), |p.code|,
            Running(a + |p.code|, regs1, Contents(w.fields, r.mem)), fuel, ExecExpr(w, fuel, e, mem),
            Through(a + |p.code| + |q.code|), m, regs');
      n := |p.code| + m;
    }
  }

  /** What an `if` does once its condition is known. */
  function Chosen(w: World, fuel: nat, e: Expr, onTrue: bool, mem: Memory): Outcome
    requires e.If?
  {
    if onTrue then ExecBlock(w, fuel, e.thenBranch, mem)
    else if e.elseBranch.None? then Normal(mem)
    else ExecExpr(w, fuel, e.elseBranch.value, mem)
  }

  lemma {:induction false} SimBranches(w: World, code: Code, sc: Scope, id: nat, cond: Reg, e: Expr, b: bool,
                                       inLoop: bool, fuel: nat, a: nat, regs: Registers, mem: Memory)
    returns (n: nat, regs': Registers)
    requires e.If? && Ready(w, code, sc, inLoop, regs, mem)
    requires EmittableExpr(sc.structName, e, inLoop) && LowerIf(sc, id, cond, e).Done?
    requires At(code, a, LowerIf(sc, id, cond, e).value.code)
    requires cond in regs && regs[cond] == Bool(b)
    ensures Follows(w, code, sc, Running(a, regs, Contents(w.fields, mem)), fuel, Chosen(w, fuel, e, b, mem),
                    Through(a + |LowerIf(sc, id, cond, e).value.code|), n, regs')
    decreases fuel, e, 0
  {
    hide Run, Params, Holds, Contents, Distinct, Registered, Jump, LowerIf, LowerArm, At;
    var onTrue, onFalse, merge := Label(ThenBlock, id), Label(ElseBlock, id), Label(MergeBlock, id);
    var start, lmem := Running(a, regs, Contents(w.fields, mem)), Contents(w.fields, mem);
    var t, at, last := BranchesAt(code, sc, id, cond, e, inLoop, a);
    OneStep(w, code, start);
    var m;
    if b {
      JumpTo(code, onTrue, a + 1, regs, lmem);
      m, regs' := SimArm(w, code, sc, id + 1, e.thenBranch, onTrue, merge, inLoop, fuel, a + 1, regs, mem);
      Arrive(w, code, sc, Running(a + 2, regs, lmem), fuel, Chosen(w, fuel, e, b, mem), merge, last, m, regs');
      After(w, code, sc, start, 1, Running(a + 2, regs, lmem), fuel, Chosen(w, fuel, e, b, mem), Through(last + 1), m,
            regs');
      n := 1 + m;
    } else if e.elseBranch.None? {
      JumpTo(code, merge, last, regs, lmem);
      n, regs' := 1, regs;
    } else {
      JumpTo(code, onFalse, at, regs, lmem);
      m, regs' := SimArm(w, code, sc, t.next, e.elseBranch.value.block, onFalse, merge, inLoop, fuel, at, regs, mem);
      Arrive(w, code, sc, Running(at + 1, regs, lmem), fuel, Chosen(w, fuel, e, b, mem), merge, last, m, regs');
      After(w, code, sc, start, 1, Running(at + 1, regs, lmem), fuel, Chosen(w, fuel, e, b, mem), Through(last + 1), m,
            regs');
      n := 1 + m;
    }
  }

  /** Where the parts of an `if` lie: the branch at `a`, the arms after it, the merge label at `last`. */
  lemma BranchesAt(code: Code, sc: Scope, id: nat, cond: Reg, e: Expr, inLoop: bool, a: nat)
    returns (t: Piece, at: nat, last: nat)
    requires e.If? && EmittableExpr(sc.structName, e, inLoop) && LowerIf(sc, id, cond, e).Done?
    requires At(code, a, LowerIf(sc, id, cond, e).value.code)
    ensures var (onTrue, onFalse, merge) := (Label(ThenBlock, id), Label(ElseBlock, id), Label(MergeBlock, id));
            && a < at <= last < |code| && a + |LowerIf(sc, id, cond, e).value.code| == last + 1
            && code[a] == CondBr(cond, onTrue, if e.elseBranch.Some? then onFalse else merge)
            && code[a + 1] == LabelDef(onTrue) && code[last] == LabelDef(merge)
            && LowerArm(sc, id + 1, e.thenBranch, onTrue, merge) == Done(t) && At(code, a + 1, t.code)
            && (e.elseBranch.Some? ==>
                  && code[at] == LabelDef(onFalse)
                  && LowerArm(sc, t.next, e.elseBranch.value.block, onFalse, merge).Done?
                  && At(code, at, LowerArm(sc, t.next, e.elseBranch.value.block, onFalse, merge).value.code))
  {
    hide LowerIf, LowerArm, At;
    var onTrue, onFalse, merge := Label(ThenBlock, id), Label(ElseBlock, id), Label(MergeBlock, id);
    var other;
    t, other := IfCode(sc, id, cond, e);
    var split := CondBr(cond, onTrue, if e.elseBranch.Some? then onFalse else merge);
    at := a + 1 + |t.code|;
    last := at + |other|;
    AtSplit(code, a, [split] + t.code + other, [LabelDef(merge)]);
    AtSplit(code, a, [split] + t.code, other);
    AtSplit(code, a, [split], t.code);
    AtIndex(code, a, [split], 0);
    AtIndex(code, a + 1, t.code, 0);
    AtIndex(code, last, [LabelDef(merge)], 0);
    AtEnd(code, last, [LabelDef(merge)]);
    if e.elseBranch.Some? {
      AtIndex(code, at, other, 0);
    }
  }

  lemma AtEnd(code: Code, a: nat, piece: Code)
    requires At(code, a, piece)
    ensures a + |piece| <= |code|
  {
  }

  lemma IfCode(sc: Scope, id: nat, cond: Reg, e: Expr) returns (t: Piece, other: Code)
    requires e.If? && (e.elseBranch.Some? ==> e.elseBranch.value.BlockExpr?) && LowerIf(sc, id, cond, e).Done?
    ensures var (onTrue, onFalse, merge) := (Label(ThenBlock, id), Label(ElseBlock, id), Label(MergeBlock, id));
            && LowerArm(sc, id + 1, e.thenBranch, onTrue, merge) == Done(t)
            && |t.code| > 0 && t.code[0] == LabelDef(onTrue)
            && LowerIf(sc, id, cond, e).value.code
               == [CondBr(cond, onTrue, if e.elseBranch.Some? then onFalse else merge)]
                  + t.code + other + [LabelDef(merge)]
            && (e.elseBranch.None? ==> other == [])
            && (e.elseBranch.Some? ==>
                  && LowerArm(sc, t.next, e.elseBranch.value.block, onFalse, merge).Done?
                  && LowerArm(sc, t.next, e.elseBranch.value.block, onFalse, merge).value.code == other
                  && |other| > 0 && other[0] == LabelDef(onFalse))
  {
    var onTrue, onFalse, merge := Label(ThenBlock, id), Label(ElseBlock, id), Label(MergeBlock, id);
    t := LowerArm(sc, id + 1, e.thenBranch, onTrue, merge).value;
    if e.elseBranch.None? {
      other := [];
      assert [CondBr(cond, onTrue, merge)] + t.code + [] == [CondBr(cond, onTrue, merge)] + t.code;
    } else {
      other := LowerArm(sc, t.next, e.elseBranch.value.block, onFalse, merge).value.code;
    }
  }

  lemma LoopCode(sc: Scope, c: nat, s: Stmt) returns (b: Piece)
    requires s.Loop? && LowerStmt(sc, c, s).Done?
    ensures var (header, exit) := (Label(LoopHeader, c), Label(LoopExit, c + 1));
            && LowerArm(Enter(sc, exit, header), c + 2, s.body, header, header) == Done(b)
            && |b.code| > 0 && b.code[0] == LabelDef(header)
            && LowerStmt(sc, c, s).value.code == [Br(header)] + b.code + [LabelDef(exit)]
  {
    hide LowerStmts;
    var header, exit := Label(LoopHeader, c), Label(LoopExit, c + 1);
    b := LowerArm(Enter(sc, exit, header), c + 2, s.body, header, header).value;
  }

  lemma LoopRuns(w: World, sc: Scope, fuel: nat, s: Stmt, inLoop: bool, mem: Memory)
    requires s.Loop? && EmittableStmt(sc.structName, s, inLoop)
    ensures EmittableBlock(sc.structName, s.body, true)
    ensures ExecStmt(w, fuel, s, mem) == AfterBody(w, fuel, s, ExecBlock(w, fuel, s.body, mem))
  {
    hide ExecBlock, EmittableBlock;
  }

  /** One turn of `loop` from its header, and what follows it. */
  lemma {:induction false} SimIteration(w: World, code: Code, sc: Scope, c: nat, s: Stmt, inLoop: bool, fuel: nat,
                                        a: nat, regs: Registers, mem: Memory) returns (n: nat, regs': Registers)
    requires s.Loop? && Ready(w, code, sc, inLoop, regs, mem)
    requires EmittableStmt(sc.structName, s, inLoop) && LowerStmt(sc, c, s).Done?
    requires At(code, a, LowerStmt(sc, c, s).value.code)
    ensures Follows(w, code, sc, Running(a + 2, regs, Contents(w.fields, mem)), fuel, ExecStmt(w, fuel, s, mem),
                    Through(a + |LowerStmt(sc, c, s).value.code|), n, regs')
    decreases fuel, s, 2
  {
    hide Run, Params, Holds, Contents, Distinct, Registered, Jump, Follows, ExecBlock, EmittableBlock;
    hide LowerStmt, LowerArm, ExecStmt, EmittableStmt, At;
    var header, exit := Label(LoopHeader, c), Label(LoopExit, c + 1);
    var inner := Enter(sc, exit, header);
    var b := LoopCode(sc, c, s);
    LoopRuns(w, sc, fuel, s, inLoop, mem);
    AtSplit(code, a, [Br(header)] + b.code, [LabelDef(exit)]);
    AtSplit(code, a, [Br(header)], b.code);
    AtIndex(code, a + 1, b.code, 0);
    AtIndex(code, a + 1 + |b.code|, [LabelDef(exit)], 0);
    var start, o := Running(a + 2, regs, Contents(w.fields, mem)), ExecBlock(w, fuel, s.body, mem);
    ReadyInside(w, code, sc, exit, header, inLoop, regs, mem);
    var m, regs1 := SimArm(w, code, inner, c + 2, s.body, header, header, true, fuel, a + 1, regs, mem);
    n, regs' := m, regs1;
    if (o.Normal? || o.Continued?) && fuel > 0 {
      LandedReady(w, code, sc, exit, header, inLoop, start, fuel, o, m, regs1);
      var k;
      k, regs' := SimIteration(w, code, sc, c, s, inLoop, fuel - 1, a, regs1, o.mem);
      n := m + k;
      NextTurn(w, code, sc, start, fuel, s, o, header, a + 1, exit, a + 1 + |b.code|, m, regs1, k, regs');
    } else {
      LastTurn(w, code, sc, start, fuel, s, o, header, a + 1, exit, a + 1 + |b.code|, m, regs1);
    }
  }

  /** The body went round: the next turn starts after the header, with one iteration less to spend. */
  lemma NextTurn(w: World, code: Code, sc: Scope, start: Config, fuel: nat, s: Stmt, o: Outcome, header: Label, h: nat,
                 exit: Label, x: nat, m: nat, regs1: Registers, k: nat, regs': Registers)
    requires Distinct(code) && h < |code| && code[h] == LabelDef(header) && x < |code| && code[x] == LabelDef(exit)
    requires Follows(w, code, Enter(sc, exit, header), start, fuel, o, Branch(header), m, regs1)
    requires (o.Normal? || o.Continued?) && fuel > 0
    requires Follows(w, code, sc, Running(h + 1, regs1, Contents(w.fields, o.mem)), fuel - 1,
                     ExecStmt(w, fuel - 1, s, o.mem), Through(x + 1), k, regs')
    ensures Follows(w, code, sc, start, fuel, AfterBody(w, fuel, s, o), Through(x + 1), m + k, regs')
  {
    hide Run, Contents, Distinct, ExecStmt, Jump, Params, Holds;
    JumpTo(code, header, h, regs1, Contents(w.fields, o.mem));
    RunAdd(w, code, m, k, start);
  }

  /** The body left the loop, or there is no iteration left to spend. */
  lemma LastTurn(w: World, code: Code, sc: Scope, start: Config, fuel: nat, s: Stmt, o: Outcome, header: Label, h: nat,
                 exit: Label, x: nat, m: nat, regs1: Registers)
    requires Distinct(code) && h < |code| && code[h] == LabelDef(header) && x < |code| && code[x] == LabelDef(exit)
    requires Follows(w, code, Enter(sc, exit, header), start, fuel, o, Branch(header), m, regs1)
    requires o.Normal? || o.Continued? ==> fuel == 0
    ensures Follows(w, code, sc, start, fuel, AfterBody(w, fuel, s, o), Through(x + 1), m, regs1)
  {
    hide Run, Contents, Distinct, ExecStmt, Jump, Params, Holds;
    if o.Normal? || o.Continued? || o.Broke? {
      JumpTo(code, header, h, regs1, Contents(w.fields, o.mem));
      JumpTo(code, exit, x, regs1, Contents(w.fields, o.mem));
    }
  }

  /** The test of `while` from its header, and what follows it. */
  lemma {:induction false} SimTest(w: World, code: Code, sc: Scope, c: nat, s: Stmt, inLoop: bool, fuel: nat,
                                   a: nat, regs: Registers, mem: Memory) returns (n: nat, regs': Registers)
    requires s.While? && Ready(w, code, sc, inLoop, regs, mem)
    requires EmittableStmt(sc.structName, s, inLoop) && LowerStmt(sc, c, s).Done?
    requires At(code, a, LowerStmt(sc, c, s).value.code)
    ensures Follows(w, code, sc, Running(a + 2, regs, Contents(w.fields, mem)), fuel, ExecStmt(w, fuel, s, mem),
                    Through(a + |LowerStmt(sc, c, s).value.code|), n, regs')
    decreases fuel, s, 2
  {
    hide Run, Params, Holds, Contents, Distinct, Registered, Jump, Kept, LowerExpr, LowerStmt, LowerArm, At;
    var p, b := WhileAt(code, sc, c, s, a);
    var r := Eval(w, s.cond, mem);
    n, regs' := 0, regs;
    if r.Val? && r.v.Bool? {
      var regs1 := SimExpr(w, code, sc, c + 3, s.cond, a + 2, regs, mem);
      var start, there := Running(a + 2, regs, Contents(w.fields, mem)),
                          Running(a + 2 + |p.code|, regs1, Contents(w.fields, r.mem));
      var m;
      m, regs' := SimTurn(w, code, sc, c, s, p, b, r.v.b, inLoop, fuel, a, regs1, r.mem);
      n := |p.code| + m;
      After(w, code, sc, start, |p.code|, there, fuel, ExecStmt(w, fuel, s, mem),
            Through(a + 4 + |p.code| + |b.code|), m, regs');
    }
  }

  /** Where the parts of a `while` lie. */
  lemma WhileAt(code: Code, sc: Scope, c: nat, s: Stmt, a: nat) returns (p: Piece, b: Piece)
    requires s.While? && LowerStmt(sc, c, s).Done?
    requires At(code, a, LowerStmt(sc, c, s).value.code)
    ensures LowerExpr(sc, c + 3, s.cond) == Done(p) && At(code, a + 2, p.code)
    ensures LowerArm(Enter(sc, Label(WhileExit, c + 2), Label(WhileHeader, c)), p.next, s.body, Label(WhileBody, c + 1),
                     Label(WhileHeader, c)) == Done(b)
    ensures At(code, a + 3 + |p.code|, b.code)
    ensures a + 3 + |p.code| + |b.code| < |code|
            && code[a + 3 + |p.code| + |b.code|] == LabelDef(Label(WhileExit, c + 2))
    ensures |LowerStmt(sc, c, s).value.code| == 4 + |p.code| + |b.code|
    ensures code[a + 1] == LabelDef(Label(WhileHeader, c))
    ensures code[a + 2 + |p.code|] == CondBr(p.reg, Label(WhileBody, c + 1), Label(WhileExit, c + 2))
  {
    hide LowerExpr, LowerArm;
    var header, enter, exit := Label(WhileHeader, c), Label(WhileBody, c + 1), Label(WhileExit, c + 2);
    p := LowerExpr(sc, c + 3, s.cond).value;
    b := LowerArm(Enter(sc, exit, header), p.next, s.body, enter, header).value;
    var entry, test := [Br(header), LabelDef(header)], [CondBr(p.reg, enter, exit)];
    AtSplit(code, a, entry + p.code + test + b.code, [LabelDef(exit)]);
    AtSplit(code, a, entry + p.code + test, b.code);
    AtSplit(code, a, entry + p.code, test);
    AtSplit(code, a, entry, p.code);
    AtIndex(code, a, entry, 1);
    AtIndex(code, a + 2 + |p.code|, test, 0);
    AtIndex(code, a + 3 + |p.code| + |b.code|, [LabelDef(exit)], 0);
  }

  /** What `while` does once its test is known. */
  function Turned(w: World, fuel: nat, s: Stmt, go: bool, mem: Memory): Outcome
    requires s.While?
  {
    if go then AfterBody(w, fuel, s, ExecBlock(w, fuel, s.body, mem)) else Normal(mem)
  }

  lemma CameThrough(w: World, code: Code, sc: Scope, start: Config, fuel: nat, pc: nat, n: nat, regs: Registers,
                    mem: Memory)
    requires Run(w, code, n, start) == Running(pc, regs, Contents(w.fields, mem)) && Params(w, regs) && Holds(w, mem)
    ensures Follows(w, code, sc, start, fuel, Normal(mem), Through(pc), n, regs)
  {
  }

  lemma {:induction false} SimTurn(w: World, code: Code, sc: Scope, c: nat, s: Stmt, p: Piece, b: Piece, go: bool,
                                   inLoop: bool, fuel: nat, a: nat, regs: Registers, mem: Memory)
    returns (n: nat, regs': Registers)
    requires s.While? && Ready(w, code, sc, inLoop, regs, mem)
    requires EmittableStmt(sc.structName, s, inLoop) && LowerStmt(sc, c, s).Done?
    requires At(code, a, LowerStmt(sc, c, s).value.code)
    requires LowerArm(Enter(sc, Label(WhileExit, c + 2), Label(WhileHeader, c)), p.next, s.body,
                      Label(WhileBody, c + 1), Label(WhileHeader, c)) == Done(b)
    requires At(code, a + 3 + |p.code|, b.code)
    requires a + 3 + |p.code| + |b.code| < |code|
             && code[a + 3 + |p.code| + |b.code|] == LabelDef(Label(WhileExit, c + 2))
    requires |LowerStmt(sc, c, s).value.code| == 4 + |p.code| + |b.code|
    requires code[a + 1] == LabelDef(Label(WhileHeader, c))
    requires code[a + 2 + |p.code|] == CondBr(p.reg, Label(WhileBody, c + 1), Label(WhileExit, c + 2))
    requires p.reg in regs && regs[p.reg] == Bool(go)
    ensures Follows(w, code, sc, Running(a + 2 + |p.code|, regs, Contents(w.fields, mem)), fuel,
                    Turned(w, fuel, s, go, mem), Through(a + 4 + |p.code| + |b.code|), n, regs')
    decreases fuel, s, 1
  {
    hide Run, Params, Holds, Contents, Distinct, Registered, Jump, LowerStmt, LowerArm, ExecBlock, EmittableBlock;
    hide At, Follows;
    var header, enter, exit := Label(WhileHeader, c), Label(WhileBody, c + 1), Label(WhileExit, c + 2);
    var inner, lmem, x := Enter(sc, exit, header), Contents(w.fields, mem), a + 3 + |p.code| + |b.code|;
    var start := Running(a + 2 + |p.code|, regs, lmem);
    OneStep(w, code, start);
    if !go {
      JumpTo(code, exit, x, regs, lmem);
      n, regs' := 1, regs;
      CameThrough(w, code, sc, start, fuel, x + 1, 1, regs, mem);
    } else {
      var at := a + 3 + |p.code|;
      ArmStarts(inner, p.next, s.body, enter, header);
      AtIndex(code, at, b.code, 0);
      JumpTo(code, enter, at, regs, lmem);
      var o := ExecBlock(w, fuel, s.body, mem);
      ReadyInside(w, code, sc, exit, header, inLoop, regs, mem);
      var m, regs1 := SimArm(w, code, inner, p.next, s.body, enter, header, true, fuel, at, regs, mem);
      After(w, code, inner, start, 1, Running(at + 1, regs, lmem), fuel, o, Branch(header), m, regs1);
      if (o.Normal? || o.Continued?) && fuel > 0 {
        LandedReady(w, code, sc, exit, header, inLoop, start, fuel, o, 1 + m, regs1);
        var k;
        k, regs' := SimTest(w, code, sc, c, s, inLoop, fuel - 1, a, regs1, o.mem);
        n := 1 + m + k;
        NextTurn(w, code, sc, start, fuel, s, o, header, a + 1, exit, x, 1 + m, regs1, k, regs');
      } else {
        n, regs' := 1 + m, regs1;
        LastTurn(w, code, sc, start, fuel, s, o, header, a + 1, exit, x, 1 + m, regs1);
      }
    }
  }

  lemma ArmStarts(sc: Scope, c: nat, block: Block, name: Label, after: Label)
    requires LowerArm(sc, c, block, name, after).Done?
    ensures |LowerArm(sc, c, block, name, after).value.code| > 0
    ensures LowerArm(sc, c, block, name, after).value.code[0] == LabelDef(name)
  {
    hide LowerStmts;
  }

  lemma ReadyInside(w: World, code: Code, sc: Scope, exit: Label, header: Label, inLoop: bool, regs: Registers,
                    mem: Memory)
    requires Ready(w, code, sc, inLoop, regs, mem)
    ensures Ready(w, code, Enter(sc, exit, header), true, regs, mem)
  {
  }

  lemma LandedReady(w: World, code: Code, sc: Scope, exit: Label, header: Label, inLoop: bool, start: Config, fuel: nat,
                    o: Outcome, n: nat, regs: Registers)
    requires Registered(w, sc) && Distinct(code) && (inLoop ==> sc.breaks != [] && sc.continues != [])
    requires o.Normal? || o.Continued?
    requires Follows(w, code, Enter(sc, exit, header), start, fuel, o, Branch(header), n, regs)
    ensures Ready(w, code, sc, inLoop, regs, o.mem)
  {
  }

  // Whole functions.

  /** A function of a session, ready to be called: its body lies in the handled fragment, its
      parameters have their values and the state struct is laid out. */
  ghost predicate Callable(w: World, sc: Scope, c: nat, body: Block, regs: Registers, mem: Memory) {
    && sc.breaks == [] && sc.continues == []
    && EmittableBlock(sc.structName, body, false) && LowerStmts(sc, c, body.stmts).Done?
    && Registered(w, sc) && Params(w, regs) && Holds(w, mem)
  }

  /** The machine, after some number of steps, returns `v` with the state struct holding `out`. */
  ghost predicate MachineReturns(w: World, code: Code, regs: Registers, mem: Memory, v: Option<Value>,
                                 out: seq<Value>)
  {
    exists n: nat :: Run(w, code, n, Running(0, regs, Contents(w.fields, mem))) == Halted(v, out)
  }

  /** The structured body, given enough iterations, returns `v` leaving `out` in the state struct. */
  ghost predicate SourceReturns(w: World, body: Block, mem: Memory, v: Option<Value>, out: seq<Value>) {
    exists fuel: nat :: ReturnsWith(w, ExecBlock(w, fuel, body, mem), v, out)
  }

  ghost predicate ReturnsWith(w: World, o: Outcome, v: Option<Value>, out: seq<Value>) {
    o.Returned? && o.result == v && Contents(w.fields, o.mem) == out
  }

  lemma SimBody(w: World, sc: Scope, c: nat, body: Block, fuel: nat, regs: Registers, mem: Memory)
    returns (n: nat, regs': Registers)
    requires Callable(w, sc, c, body, regs, mem)
    ensures var code := LowerStmts(sc, c, body.stmts).value.code;
            Follows(w, code, sc, Running(0, regs, Contents(w.fields, mem)), fuel, ExecBlock(w, fuel, body, mem),
                    Through(|code|), n, regs')
  {
    hide Run, Params, Holds, Contents, Registered;
    var code := LowerStmts(sc, c, body.stmts).value.code;
    StmtsWellFormed(sc, c, body.stmts);
    BlockIsStmts(w, sc, fuel, body, false, mem);
    assert At(code, 0, code);
    n, regs' := SimStmts(w, code, sc, c, body.stmts, false, fuel, 0, regs, mem);
  }

  /** Forwards: whatever the structured body returns, the machine returns. */
  lemma ReturnIsReached(w: World, sc: Scope, c: nat, body: Block, fuel: nat, regs: Registers, mem: Memory)
    requires Callable(w, sc, c, body, regs, mem)
    requires ExecBlock(w, fuel, body, mem).Returned?
    ensures var o := ExecBlock(w, fuel, body, mem);
            MachineReturns(w, LowerStmts(sc, c, body.stmts).value.code, regs, mem, o.result, Contents(w.fields, o.mem))
  {
    hide Run, Params, Holds, Contents, Registered, LowerStmts, ExecBlock;
    var n, regs' := SimBody(w, sc, c, body, fuel, regs, mem);
  }

  /** Backwards: a machine that has halted after `n` steps did what the body does within `n` + 1
      iterations, unless the body goes wrong. */
  lemma HaltIsReturn(w: World, sc: Scope, c: nat, body: Block, n: nat, v: Option<Value>, out: seq<Value>,
                     regs: Registers, mem: Memory)
    requires Callable(w, sc, c, body, regs, mem)
    requires Run(w, LowerStmts(sc, c, body.stmts).value.code, n, Running(0, regs, Contents(w.fields, mem)))
             == Halted(v, out)
    requires !ExecBlock(w, n + 1, body, mem).GoesWrong?
    ensures ReturnsWith(w, ExecBlock(w, n + 1, body, mem), v, out)
  {
    hide Run, Params, Holds, Contents, Registered, LowerStmts, ExecBlock;
    var code := LowerStmts(sc, c, body.stmts).value.code;
    var start, o := Running(0, regs, Contents(w.fields, mem)), ExecBlock(w, n + 1, body, mem);
    var m, regs' := SimBody(w, sc, c, body, n + 1, regs, mem);
    HaltedOnce(w, code, n, m, start);
    if o.Normal? {
      var there := Running(|code|, regs', Contents(w.fields, o.mem));
      OneStep(w, code, there);
      RunAdd(w, code, m, 1, start);
      HaltedOnce(w, code, n, m + 1, start);
    }
  }

  lemma BodyPreservesMeaning(w: World, sc: Scope, c: nat, body: Block, regs: Registers, mem: Memory,
                             v: Option<Value>, out: seq<Value>)
    requires Callable(w, sc, c, body, regs, mem)
    requires forall fuel: nat :: !ExecBlock(w, fuel, body, mem).GoesWrong?
    ensures MachineReturns(w, LowerStmts(sc, c, body.stmts).value.code, regs, mem, v, out)
            <==> SourceReturns(w, body, mem, v, out)
  {
    hide Run, Params, Holds, Contents, Registered, LowerStmts, ExecBlock, EmittableBlock;
    var code := LowerStmts(sc, c, body.stmts).value.code;
    if MachineReturns(w, code, regs, mem, v, out) {
      var n: nat :| Run(w, code, n, Running(0, regs, Contents(w.fields, mem))) == Halted(v, out);
      HaltIsReturn(w, sc, c, body, n, v, out, regs, mem);
    }
    if SourceReturns(w, body, mem, v, out) {
      var fuel: nat :| ReturnsWith(w, ExecBlock(w, fuel, body, mem), v, out);
      ReturnIsReached(w, sc, c, body, fuel, regs, mem);
    }
  }

  lemma {:induction false} FnOfSession(sc: Scope, c: nat, bodies: seq<Block>, i: nat) returns (ci: nat)
    requires LowerFns(sc, c, bodies).Ok? && i < |bodies|
    ensures |LowerFns(sc, c, bodies).value| == |bodies| && LowerStmts(sc, ci, bodies[i].stmts).Done?
    ensures LowerFns(sc, c, bodies).value[i] == LowerStmts(sc, ci, bodies[i].stmts).value.code
    decreases |bodies|
  {
    var p := LowerStmts(sc, c, bodies[0].stmts).value;
    if |bodies| > 1 {
      ci := FnOfSession(sc, p.next, bodies[1..], if i == 0 then 0 else i - 1);
    }
    if i == 0 {
      ci := c;
    }
  }

  /** Each function that a session emits returns exactly what its structured body returns, with the
      same contents of the state struct, and never returns exactly when its body never does: for
      every body of the fragment, every call that does not go wrong, and loops without any bound. */
  lemma EmissionPreservesMeaning(w: World, structName: string, bodies: seq<Block>, i: nat, codes: seq<Code>,
                                 regs: Registers, mem: Memory, v: Option<Value>, out: seq<Value>)
    requires LowerFns(Scope(structName, w.fields, [], []), 0, bodies) == Ok(codes) && i < |bodies|
    requires EmittableBlock(structName, bodies[i], false)
    requires Registered(w, Scope(structName, w.fields, [], [])) && Params(w, regs) && Holds(w, mem)
    requires forall fuel: nat :: !ExecBlock(w, fuel, bodies[i], mem).GoesWrong?
    ensures |codes| == |bodies|
    ensures MachineReturns(w, codes[i], regs, mem, v, out) <==> SourceReturns(w, bodies[i], mem, v, out)
  {
    hide Run, Params, Holds, Contents, Registered, LowerStmts, ExecBlock, EmittableBlock, LowerFns;
    var sc := Scope(structName, w.fields, [], []);
    var c := FnOfSession(sc, 0, bodies, i);
    BodyPreservesMeaning(w, sc, c, bodies[i], regs, mem, v, out);
  }

  // Erasure.

  predicate Contract(s: Stmt) {
    s.Assume? || (s.ExprStmt? && (s.e.Requires? || s.e.Ensures?))
  }

  lemma {:induction false} StmtsYieldUnit(sc: Scope, c: nat, stmts: seq<Stmt>)
    ensures LowerStmts(sc, c, stmts).Done? ==> LowerStmts(sc, c, stmts).value.reg == UnitReg
  {
    if stmts != [] && LowerStmt(sc, c, stmts[0]).Done? {
      assert LowerStmt(sc, c, stmts[0]).value.reg == UnitReg;
    }
  }

  /** A contract or assumption anywhere in a block leaves the emitted code exactly as without it. */
  lemma {:induction false} ContractsAreErased(sc: Scope, c: nat, stmts: seq<Stmt>, i: nat, s: Stmt)
    requires i <= |stmts| && Contract(s)
    ensures LowerStmts(sc, c, stmts[..i] + [s] + stmts[i..]) == LowerStmts(sc, c, stmts)
    decreases |stmts|
  {
    var longer := stmts[..i] + [s] + stmts[i..];
    if i == 0 {
      assert longer[1..] == stmts;
      StmtsYieldUnit(sc, c, stmts);
      var rest := LowerStmts(sc, c, stmts);
      assert LowerStmt(sc, c, s) == Done(Piece([], c, UnitReg, false));
      assert rest.Done? ==> [] + rest.value.code == rest.value.code;
    } else {
      var p := LowerStmt(sc, c, stmts[0]);
      assert longer[0] == stmts[0];
      assert longer[1..] == stmts[1..][..i - 1] + [s] + stmts[1..][i - 1..];
      if p.Done? && !p.value.ends {
        ContractsAreErased(sc, p.value.next, stmts[1..], i - 1, s);
      }
    }
  }
}
