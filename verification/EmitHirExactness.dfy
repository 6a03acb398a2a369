/** Exactly when trees with parts that the emitter drops still keep their meaning. */
module EmitHirExactness {
  import opened Wrappers
  import opened Hir
  import opened Mlir
  import opened EmitHir
  import opened EmitHirNames
  import opened EmitHirValues
  import opened EmitHirSimulation

  // Code without branches.

  predicate Straight(code: Code) {
    forall i :: 0 <= i < |code| ==> !code[i].Terminator() && !code[i].LabelDef?
  }

  lemma {:induction false} ExprIsStraight(sc: Scope, c: nat, e: Expr)
    requires ValueExpr(sc.structName, e) && LowerExpr(sc, c, e).Done?
    ensures Straight(LowerExpr(sc, c, e).value.code)
    decreases e
  {
    hide LowerExpr;
    match e {
      case Binary(_, lhs, rhs) =>
        BinaryPiece(sc, c, e);
        ExprIsStraight(sc, c, lhs);
        ExprIsStraight(sc, LowerExpr(sc, c, lhs).value.next, rhs);
      case Unary(_, inner) =>
        UnaryPiece(sc, c, e);
        ExprIsStraight(sc, c, inner);
      case Field(base, _, _) =>
        FieldPiece(sc, c, e);
        ExprIsStraight(sc, c, base);
      case Assign(target, rhs) =>
        AssignPiece(sc, c, e);
        ExprIsStraight(sc, c, rhs);
        ExprIsStraight(sc, LowerExpr(sc, c, rhs).value.next + 1, target.base);
      case PollReady(Some(payload)) =>
        ReadyPiece(sc, c, e);
        ExprIsStraight(sc, c + 1, payload);
      case _ =>
        LeafIsStraight(sc, c, e);
    }
  }

  lemma LeafIsStraight(sc: Scope, c: nat, e: Expr)
    requires e.IntLit? || e.BoolLit? || e.Var? || e.PollPending? || e == PollReady(None)
    ensures LowerExpr(sc, c, e).Done? && Straight(LowerExpr(sc, c, e).value.code)
  {
  }

  /** A run through straight code takes one place at a time. */
  lemma {:induction false} StraightRun(w: World, code: Code, a: nat, piece: Code, n: nat, regs: Registers,
                                       mem: seq<Value>)
    requires At(code, a, piece) && Straight(piece) && n <= |piece|
    ensures var r := Run(w, code, n, Running(a, regs, mem)); !r.Halted? && (r.Running? ==> r.pc == a + n)
  {
    hide At, Straight;
    var start := Running(a, regs, mem);
    if n == 0 {
      assert Run(w, code, 0, start) == start;
    } else {
      StraightRun(w, code, a, piece, n - 1, regs, mem);
      RunAdd(w, code, n - 1, 1, start);
      var before := Run(w, code, n - 1, start);
      OneStep(w, code, before);
      AtIndex(code, a, piece, n - 1);
      AtEnd(code, a, piece);
      StraightAt(piece, n - 1);
      StraightStep(w, code, before);
    }
  }

  lemma StraightAt(piece: Code, i: nat)
    requires Straight(piece) && i < |piece|
    ensures !piece[i].Terminator() && !piece[i].LabelDef?
  {
  }

  lemma StraightStep(w: World, code: Code, cfg: Config)
    requires !cfg.Halted?
    requires cfg.Running? ==> cfg.pc < |code| && !code[cfg.pc].Terminator() && !code[cfg.pc].LabelDef?
    ensures !Step(w, code, cfg).Halted?
    ensures Step(w, code, cfg).Running? ==> cfg.Running? && Step(w, code, cfg).pc == cfg.pc + 1
  {
  }

  // An `else` that is not a block.

  predicate ElseIf(e: Expr) {
    e.If? && e.elseBranch.Some? && !e.elseBranch.value.BlockExpr?
  }

  /** The labels of the innermost loop lie in the code. */
  predicate LoopsEntered(sc: Scope, code: Code) {
    && (sc.breaks != [] ==> LoopLabel(sc.breaks[|sc.breaks| - 1], code))
    && (sc.continues != [] ==> LoopLabel(sc.continues[|sc.continues| - 1], code))
  }

  predicate LoopLabel(l: Label, code: Code) {
    l.kind != ElseBlock && LabelDef(l) in code
  }

  /** Where the parts of such an `if` lie: the empty `else` block is followed by the merge label. */
  lemma ElseIfAt(code: Code, sc: Scope, c: nat, e: Expr, a: nat) returns (p: Piece, t: Piece, last: nat)
    requires ElseIf(e) && LowerExpr(sc, c, e).Done? && At(code, a, LowerExpr(sc, c, e).value.code)
    ensures LowerExpr(sc, c, e.cond) == Done(p) && At(code, a, p.code)
    ensures var (onTrue, onFalse, merge) := (Label(ThenBlock, p.next), Label(ElseBlock, p.next),
                                             Label(MergeBlock, p.next));
            var split := a + |p.code|;
            && LowerArm(sc, p.next + 1, e.thenBranch, onTrue, merge) == Done(t) && At(code, split + 1, t.code)
            && last == split + 1 + |t.code| && last + 1 < |code|
            && code[split] == CondBr(p.reg, onTrue, onFalse) && code[split + 1] == LabelDef(onTrue)
            && code[last] == LabelDef(onFalse) && code[last + 1] == LabelDef(merge)
            && a + |LowerExpr(sc, c, e).value.code| == last + 2 && split < last
  {
    hide LowerExpr, LowerArm, At;
    IfPiece(sc, c, e);
    p := LowerExpr(sc, c, e.cond).value;
    t := ElseIfCode(sc, p.next, p.reg, e);
    var onTrue, onFalse, merge := Label(ThenBlock, p.next), Label(ElseBlock, p.next), Label(MergeBlock, p.next);
    var q := LowerIf(sc, p.next, p.reg, e).value;
    var split := a + |p.code|;
    last := split + 1 + |t.code|;
    AtSplit(code, a, p.code, q.code);
    AtEnd(code, split, q.code);
    AtSplit(code, split, [CondBr(p.reg, onTrue, onFalse)] + t.code, [LabelDef(onFalse), LabelDef(merge)]);
    AtSplit(code, split, [CondBr(p.reg, onTrue, onFalse)], t.code);
    AtIndex(code, split, [CondBr(p.reg, onTrue, onFalse)], 0);
    AtIndex(code, split + 1, t.code, 0);
    AtIndex(code, last, [LabelDef(onFalse), LabelDef(merge)], 0);
    AtIndex(code, last, [LabelDef(onFalse), LabelDef(merge)], 1);
    AtEnd(code, last, [LabelDef(onFalse), LabelDef(merge)]);
  }

  lemma ElseIfCode(sc: Scope, id: nat, cond: Reg, e: Expr) returns (t: Piece)
    requires ElseIf(e) && LowerIf(sc, id, cond, e).Done?
    ensures var (onTrue, onFalse, merge) := (Label(ThenBlock, id), Label(ElseBlock, id), Label(MergeBlock, id));
            && LowerArm(sc, id + 1, e.thenBranch, onTrue, merge) == Done(t)
            && |t.code| > 0 && t.code[0] == LabelDef(onTrue)
            && LowerIf(sc, id, cond, e).value.code
               == [CondBr(cond, onTrue, onFalse)] + t.code + [LabelDef(onFalse), LabelDef(merge)]
  {
    var onTrue, onFalse, merge := Label(ThenBlock, id), Label(ElseBlock, id), Label(MergeBlock, id);
    t := LowerArm(sc, id + 1, e.thenBranch, onTrue, merge).value;
    ArmStarts(sc, id + 1, e.thenBranch, onTrue, merge);
    var front := [CondBr(cond, onTrue, onFalse)] + t.code;
    assert front + [LabelDef(onFalse)] + [LabelDef(merge)] == front + [LabelDef(onFalse), LabelDef(merge)];
  }

  /** Whatever the `else` is, when the condition is false the machine falls out of the empty block
      into the merge label and is stuck. */
  lemma ElseIfDropped(w: World, code: Code, sc: Scope, c: nat, e: Expr, a: nat, regs: Registers, mem: Memory)
    returns (p: Piece, last: nat)
    requires ElseIf(e) && ValueExpr(sc.structName, e.cond) && LowerExpr(sc, c, e).Done?
    requires At(code, a, LowerExpr(sc, c, e).value.code)
    requires Registered(w, sc) && Distinct(code) && Params(w, regs) && Holds(w, mem)
    requires Eval(w, e.cond, mem).Val? && Eval(w, e.cond, mem).v == Bool(false)
    ensures LowerExpr(sc, c, e.cond) == Done(p) && At(code, a, p.code)
    ensures a + |p.code| < last && last < |code| && code[last] == LabelDef(Label(ElseBlock, p.next))
    ensures a + |LowerExpr(sc, c, e).value.code| == last + 2
    ensures var start := Running(a, regs, Contents(w.fields, mem));
            && Run(w, code, |p.code| + 1, start).Running? && Run(w, code, |p.code| + 1, start).pc == last + 1
            && forall n :: n >= |p.code| + 2 ==> Run(w, code, n, start) == Stuck
  {
    hide Run, Params, Holds, Contents, Distinct, Registered, LowerExpr, LowerArm, At, Kept;
    var t;
    p, t, last := ElseIfAt(code, sc, c, e, a);
    var start := Running(a, regs, Contents(w.fields, mem));
    var mem1 := Eval(w, e.cond, mem).mem;
    var regs1 := SimExpr(w, code, sc, c, e.cond, a, regs, mem);
    var there := Running(a + |p.code|, regs1, Contents(w.fields, mem1));
    RunAdd(w, code, |p.code|, 1, start);
    OneStep(w, code, there);
    JumpTo(code, Label(ElseBlock, p.next), last, regs1, Contents(w.fields, mem1));
    var fallen := Running(last + 1, regs1, Contents(w.fields, mem1));
    RunAdd(w, code, |p.code| + 1, 1, start);
    OneStep(w, code, fallen);
    forall n | n >= |p.code| + 2
      ensures Run(w, code, n, start) == Stuck
    {
      HaltedOnce(w, code, |p.code| + 2, n, start);
    }
  }

  /** Some run of the machine from `start` matches the structured outcome. */
  ghost predicate Matched(w: World, code: Code, sc: Scope, start: Config, fuel: nat, o: Outcome, exit: Exit) {
    exists n: nat, regs: Registers :: Follows(w, code, sc, start, fuel, o, exit, n, regs)
  }

  lemma {:induction false} ElseIfTaken(w: World, code: Code, sc: Scope, c: nat, e: Expr, inLoop: bool, fuel: nat,
                                       a: nat, regs: Registers, mem: Memory)
    requires ElseIf(e) && ValueExpr(sc.structName, e.cond) && EmittableBlock(sc.structName, e.thenBranch, inLoop)
    requires LowerExpr(sc, c, e).Done? && At(code, a, LowerExpr(sc, c, e).value.code)
    requires Ready(w, code, sc, inLoop, regs, mem)
    requires Eval(w, e.cond, mem).Val? && Eval(w, e.cond, mem).v == Bool(true)
    ensures Matched(w, code, sc, Running(a, regs, Contents(w.fields, mem)), fuel, ExecExpr(w, fuel, e, mem),
                    Through(a + |LowerExpr(sc, c, e).value.code|))
  {
    hide Run, Params, Holds, Contents, Distinct, Registered, LowerExpr, LowerArm, At, Kept, Follows, ExecBlock;
    hide EmittableBlock;
    var p, t, last := ElseIfAt(code, sc, c, e, a);
    var onTrue, merge := Label(ThenBlock, p.next), Label(MergeBlock, p.next);
    var r := Eval(w, e.cond, mem);
    var start, o := Running(a, regs, Contents(w.fields, mem)), ExecBlock(w, fuel, e.thenBranch, r.mem);
    var split := a + |p.code|;
    var regs1 := SimExpr(w, code, sc, c, e.cond, a, regs, mem);
    var there := Running(split, regs1, Contents(w.fields, r.mem));
    var inside := Running(split + 2, regs1, Contents(w.fields, r.mem));
    OneStep(w, code, there);
    JumpTo(code, onTrue, split + 1, regs1, Contents(w.fields, r.mem));
    var n, regs2 := SimArm(w, code, sc, p.next + 1, e.thenBranch, onTrue, merge, inLoop, fuel, split + 1, regs1, r.mem);
    Arrive(w, code, sc, inside, fuel, o, merge, last + 1, n, regs2);
    RunAdd(w, code, |p.code|, 1, start);
    After(w, code, sc, start, |p.code| + 1, inside, fuel, o, Through(last + 2), n, regs2);
    assert ExecExpr(w, fuel, e, mem) == o;
  }

  /** Stuck from step `k` on and before that never at a place where an outcome could be met. */
  lemma {:induction false} ElseIfUnmatched(w: World, code: Code, sc: Scope, c: nat, e: Expr, fuel: nat,
                                           a: nat, regs: Registers, mem: Memory)
    requires ElseIf(e) && ValueExpr(sc.structName, e.cond)
    requires LowerExpr(sc, c, e).Done? && At(code, a, LowerExpr(sc, c, e).value.code)
    requires Registered(w, sc) && Distinct(code) && Params(w, regs) && Holds(w, mem) && LoopsEntered(sc, code)
    requires Eval(w, e.cond, mem).Val? && Eval(w, e.cond, mem).v == Bool(false)
    requires fuel > |LowerExpr(sc, c, e).value.code| && !ExecExpr(w, fuel, e, mem).GoesWrong?
    ensures !Matched(w, code, sc, Running(a, regs, Contents(w.fields, mem)), fuel, ExecExpr(w, fuel, e, mem),
                     Through(a + |LowerExpr(sc, c, e).value.code|))
  {
    hide Run, Params, Holds, Contents, Distinct, Registered, LowerExpr, LowerArm, At, ExecExpr, Find;
    var start, o := Running(a, regs, Contents(w.fields, mem)), ExecExpr(w, fuel, e, mem);
    var p, last := ElseIfDropped(w, code, sc, c, e, a, regs, mem);
    ExprIsStraight(sc, c, e.cond);
    var exit := Through(last + 2);
    forall n: nat, regs': Registers
      ensures !Follows(w, code, sc, start, fuel, o, exit, n, regs')
    {
      if n <= |p.code| {
        StraightRun(w, code, a, p.code, n, regs, Contents(w.fields, mem));
        if n > 0 {
          AtIndex(code, a, p.code, n - 1);
          AtEnd(code, a, p.code);
          StraightAt(p.code, n - 1);
        }
      }
    }
  }

  /** For every `if` whose `else` is no block and whose condition evaluates, in any place: the code
      matches the source for every number of iterations exactly when the condition is true. */
  lemma ElseIfExact(w: World, code: Code, sc: Scope, c: nat, e: Expr, inLoop: bool, a: nat, regs: Registers,
                    mem: Memory)
    requires ElseIf(e) && ValueExpr(sc.structName, e.cond) && EmittableBlock(sc.structName, e.thenBranch, inLoop)
    requires LowerExpr(sc, c, e).Done? && At(code, a, LowerExpr(sc, c, e).value.code)
    requires Ready(w, code, sc, inLoop, regs, mem) && LoopsEntered(sc, code)
    requires Eval(w, e.cond, mem).Val? && Eval(w, e.cond, mem).v.Bool?
    requires forall fuel: nat :: !ExecExpr(w, fuel, e, mem).GoesWrong?
    ensures Eval(w, e.cond, mem).v == Bool(true)
            <==> forall fuel: nat ::
                   Matched(w, code, sc, Running(a, regs, Contents(w.fields, mem)), fuel, ExecExpr(w, fuel, e, mem),
                           Through(a + |LowerExpr(sc, c, e).value.code|))
  {
    hide LowerExpr, ExecExpr, Matched, At, EmittableBlock, Contents;
    if Eval(w, e.cond, mem).v == Bool(true) {
      forall fuel: nat
        ensures Matched(w, code, sc, Running(a, regs, Contents(w.fields, mem)), fuel, ExecExpr(w, fuel, e, mem),
                        Through(a + |LowerExpr(sc, c, e).value.code|))
      {
        ElseIfTaken(w, code, sc, c, e, inLoop, fuel, a, regs, mem);
      }
    } else {
      ElseIfUnmatched(w, code, sc, c, e, |LowerExpr(sc, c, e).value.code| + 1, a, regs, mem);
    }
  }

  // The trailing value of a block.

  /** Different contents of the state struct are laid out differently. */
  lemma ContentsTell(w: World, m1: Memory, m2: Memory)
    requires Holds(w, m1) && Holds(w, m2)
    ensures Contents(w.fields, m1) == Contents(w.fields, m2) <==> m1 == m2
  {
    if Contents(w.fields, m1) == Contents(w.fields, m2) {
      forall f | f in m1
        ensures f in m2 && m1[f] == m2[f]
      {
        var i :| 0 <= i < |w.fields| && w.fields[i] == f;
        assert Contents(w.fields, m1)[i] == m1[f] && Contents(w.fields, m2)[i] == m2[f];
      }
      assert forall f | f in m2 :: f in m1;
    }
  }

  /** What the trailing value does, whatever it is: also an `if` or a block with control flow in it. */
  function TailOutcome(w: World, fuel: nat, block: Block, mem: Memory): Outcome {
    if block.value.None? then Normal(mem) else ExecExpr(w, fuel, block.value.value, mem)
  }

  /** The innermost loop's label stands just before this place. */
  predicate LabelBefore(labels: seq<Label>, code: Code, pc: nat) {
    labels != [] && pc == Find(code, labels[|labels| - 1]) + 1 <= |code|
  }

  /** Staying where it is, after `n` steps and with the contents `m`, is what the trailing value does. */
  predicate Idle(code: Code, sc: Scope, pc: nat, fuel: nat, n: nat, m: Memory, tail: Outcome) {
    match tail
    case Timeout => n >= fuel
    case GoesWrong => true
    case Normal(mem) => mem == m
    case Broke(mem) => mem == m && n >= 1 && LabelBefore(sc.breaks, code, pc)
    case Continued(mem) => mem == m && n >= 1 && LabelBefore(sc.continues, code, pc)
    case Returned(_, _) => false
  }

  lemma IdleFollows(w: World, code: Code, sc: Scope, start: Config, fuel: nat, pc: nat, n: nat, regs: Registers,
                    m: Memory, tail: Outcome)
    requires Run(w, code, n, start) == Running(pc, regs, Contents(w.fields, m)) && Params(w, regs) && Holds(w, m)
    ensures Follows(w, code, sc, start, fuel, tail, Through(pc), n, regs) <==> Idle(code, sc, pc, fuel, n, m, tail)
  {
    hide Run, Params, Holds, Contents;
    if tail.Normal? || tail.Broke? || tail.Continued? {
      if Holds(w, tail.mem) {
        ContentsTell(w, m, tail.mem);
      }
    }
  }

  lemma BlockRuns(w: World, fuel: nat, block: Block, mem: Memory)
    ensures var o := ExecStmts(w, fuel, block.stmts, mem);
            ExecBlock(w, fuel, block, mem) == if o.Normal? then TailOutcome(w, fuel, block, o.mem) else o
  {
    hide ExecStmts, ExecExpr;
  }

  /** For every block with any trailing value, in any place: the run of its code that does what its
      statements do also does what the block does exactly when the trailing value does nothing. */
  lemma TailDropped(w: World, code: Code, sc: Scope, c: nat, block: Block, inLoop: bool, fuel: nat,
                    a: nat, regs: Registers, mem: Memory) returns (n: nat, regs': Registers)
    requires Ready(w, code, sc, inLoop, regs, mem)
    requires EmittableStmts(sc.structName, block.stmts, inLoop) && LowerStmts(sc, c, block.stmts).Done?
    requires At(code, a, LowerStmts(sc, c, block.stmts).value.code)
    ensures var (start, o) := (Running(a, regs, Contents(w.fields, mem)), ExecStmts(w, fuel, block.stmts, mem));
            var exit := Through(a + |LowerStmts(sc, c, block.stmts).value.code|);
            && Follows(w, code, sc, start, fuel, o, exit, n, regs')
            && (o.Normal? ==>
                  (Follows(w, code, sc, start, fuel, ExecBlock(w, fuel, block, mem), exit, n, regs')
                   <==> Idle(code, sc, exit.pc, fuel, n, o.mem, TailOutcome(w, fuel, block, o.mem))))
  {
    hide Run, Params, Holds, Contents, Distinct, Registered, LowerStmts, EmittableStmts, At, ExecStmts, ExecBlock;
    hide TailOutcome;
    n, regs' := SimStmts(w, code, sc, c, block.stmts, inLoop, fuel, a, regs, mem);
    var o := ExecStmts(w, fuel, block.stmts, mem);
    if o.Normal? {
      BlockRuns(w, fuel, block, mem);
      IdleFollows(w, code, sc, Running(a, regs, Contents(w.fields, mem)), fuel,
                  a + |LowerStmts(sc, c, block.stmts).value.code|, n, regs', o.mem, TailOutcome(w, fuel, block, o.mem));
    }
  }

  /** Where the code ends with the block, no other run arrives at its end either: the block is matched
      exactly when its trailing value comes to an end with what it found. */
  lemma TailExact(w: World, code: Code, sc: Scope, c: nat, block: Block, inLoop: bool, fuel: nat,
                  a: nat, regs: Registers, mem: Memory) returns (n: nat)
    requires Ready(w, code, sc, inLoop, regs, mem) && sc.breaks == [] && sc.continues == []
    requires EmittableStmts(sc.structName, block.stmts, inLoop) && LowerStmts(sc, c, block.stmts).Done?
    requires At(code, a, LowerStmts(sc, c, block.stmts).value.code)
    requires a + |LowerStmts(sc, c, block.stmts).value.code| == |code|
    requires ExecStmts(w, fuel, block.stmts, mem).Normal?
    requires !TailOutcome(w, fuel, block, ExecStmts(w, fuel, block.stmts, mem).mem).GoesWrong?
    ensures var m := ExecStmts(w, fuel, block.stmts, mem).mem;
            var tail := TailOutcome(w, fuel, block, m);
            Matched(w, code, sc, Running(a, regs, Contents(w.fields, mem)), fuel, ExecBlock(w, fuel, block, mem),
                    Through(|code|))
            <==> tail == Normal(m) || (tail == Timeout && n >= fuel)
    ensures var start := Running(a, regs, Contents(w.fields, mem));
            Run(w, code, n, start).Running? && Run(w, code, n, start).pc == |code|
  {
    hide Run, Params, Holds, Contents, Distinct, Registered, LowerStmts, EmittableStmts, At, ExecStmts, ExecBlock;
    hide TailOutcome;
    var start, m := Running(a, regs, Contents(w.fields, mem)), ExecStmts(w, fuel, block.stmts, mem).mem;
    var o := ExecBlock(w, fuel, block, mem);
    BlockRuns(w, fuel, block, mem);
    var regs';
    n, regs' := TailDropped(w, code, sc, c, block, inLoop, fuel, a, regs, mem);
    forall n2: nat, regs2: Registers | Follows(w, code, sc, start, fuel, o, Through(|code|), n2, regs2)
      ensures Idle(code, sc, |code|, fuel, n, m, o)
    {
      if o.Normal? {
        EndIsReachedOnce(w, code, n, n2, start);
        ContentsTell(w, m, o.mem);
      } else if n2 > n {
        EndIsLast(w, code, n, n2, start);
      } else if o.Returned? {
        HaltedOnce(w, code, n2, n, start);
      }
    }
  }

  /** The end of the code is no instruction: a run comes there once. */
  lemma EndIsReachedOnce(w: World, code: Code, m: nat, n: nat, start: Config)
    requires Run(w, code, m, start).Running? && Run(w, code, m, start).pc == |code|
    requires Run(w, code, n, start).Running? && Run(w, code, n, start).pc == |code|
    ensures m == n
  {
    hide Run;
    if m < n {
      EndIsLast(w, code, m, n, start);
    } else if n < m {
      EndIsLast(w, code, n, m, start);
    }
  }

  lemma EndIsLast(w: World, code: Code, m: nat, n: nat, start: Config)
    requires Run(w, code, m, start).Running? && Run(w, code, m, start).pc == |code| && m < n
    ensures Run(w, code, n, start) == Stuck
  {
    hide Run;
    RunAdd(w, code, m, 1, start);
    OneStep(w, code, Run(w, code, m, start));
    HaltedOnce(w, code, m + 1, n, start);
  }

  /** The statements end normally and then the trailing value returns. */
  predicate TailReturns(w: World, fuel: nat, block: Block, mem: Memory) {
    var o := ExecStmts(w, fuel, block.stmts, mem);
    o.Normal? && TailOutcome(w, fuel, block, o.mem).Returned?
  }

  lemma ReturnsSomething(w: World, fuel: nat, body: Block, mem: Memory)
    requires TailReturns(w, fuel, body, mem)
    ensures exists v, out :: SourceReturns(w, body, mem, v, out)
  {
    hide ExecStmts, ExecExpr, ExecBlock, Contents;
    BlockRuns(w, fuel, body, mem);
    var o := ExecBlock(w, fuel, body, mem);
    assert ReturnsWith(w, o, o.result, Contents(w.fields, o.mem));
    assert SourceReturns(w, body, mem, o.result, Contents(w.fields, o.mem));
  }

  lemma MachineFallsOff(w: World, sc: Scope, c: nat, body: Block, fuel: nat, regs: Registers, mem: Memory)
    requires sc.breaks == [] && sc.continues == [] && Registered(w, sc) && Params(w, regs) && Holds(w, mem)
    requires EmittableStmts(sc.structName, body.stmts, false) && LowerStmts(sc, c, body.stmts).Done?
    requires TailReturns(w, fuel, body, mem)
    ensures forall v, out :: !MachineReturns(w, LowerStmts(sc, c, body.stmts).value.code, regs, mem, v, out)
  {
    hide Run, Params, Holds, Contents, Registered, LowerStmts, EmittableStmts, ExecStmts, Distinct;
    var code := LowerStmts(sc, c, body.stmts).value.code;
    var start, o := Running(0, regs, Contents(w.fields, mem)), ExecStmts(w, fuel, body.stmts, mem);
    StmtsWellFormed(sc, c, body.stmts);
    AtStart(code);
    var n, regs' := SimStmts(w, code, sc, c, body.stmts, false, fuel, 0, regs, mem);
    forall k: nat, v, out
      ensures Run(w, code, k, start) != Halted(v, out)
    {
      if k > n {
        EndIsLast(w, code, n, k, start);
      } else if Run(w, code, k, start) == Halted(v, out) {
        HaltedOnce(w, code, k, n, start);
      }
    }
  }

  lemma AtStart(code: Code)
    ensures At(code, 0, code)
  {
  }

  lemma WithoutTail(w: World, body: Block, mem: Memory, v: Option<Value>, out: seq<Value>)
    requires forall fuel: nat :: !TailReturns(w, fuel, body, mem)
    requires forall fuel: nat :: !ExecBlock(w, fuel, body, mem).GoesWrong?
    ensures forall fuel: nat :: !ExecBlock(w, fuel, Block(body.stmts, None), mem).GoesWrong?
    ensures SourceReturns(w, body, mem, v, out) <==> SourceReturns(w, Block(body.stmts, None), mem, v, out)
  {
    hide ExecBlock, ExecStmts, ExecExpr, ReturnsWith;
    forall fuel: nat
      ensures var (with, without) := (ExecBlock(w, fuel, body, mem), ExecBlock(w, fuel, Block(body.stmts, None), mem));
              !without.GoesWrong? && (with.Returned? || without.Returned? ==> with == without)
    {
      BlockRuns(w, fuel, body, mem);
      BlockRuns(w, fuel, Block(body.stmts, None), mem);
      assert !TailReturns(w, fuel, body, mem);
    }
    assert forall o :: ReturnsWith(w, o, v, out) ==> o.Returned? by {
      ReturnedOnly(w, v, out);
    }
  }

  lemma ReturnedOnly(w: World, v: Option<Value>, out: seq<Value>)
    ensures forall o :: ReturnsWith(w, o, v, out) ==> o.Returned?
  {
  }

  /** For every function body that never goes wrong, whatever its trailing value: what the machine returns
      is what the source returns exactly when the trailing value, which is never emitted, never returns. */
  lemma TailReturnsExactly(w: World, sc: Scope, c: nat, body: Block, regs: Registers, mem: Memory)
    requires sc.breaks == [] && sc.continues == [] && Registered(w, sc) && Params(w, regs) && Holds(w, mem)
    requires EmittableStmts(sc.structName, body.stmts, false) && LowerStmts(sc, c, body.stmts).Done?
    requires forall fuel: nat :: !ExecBlock(w, fuel, body, mem).GoesWrong?
    ensures (forall v, out :: MachineReturns(w, LowerStmts(sc, c, body.stmts).value.code, regs, mem, v, out)
                              <==> SourceReturns(w, body, mem, v, out))
            <==> forall fuel: nat :: !TailReturns(w, fuel, body, mem)
  {
    hide Run, Params, Holds, Contents, Registered, LowerStmts, ExecBlock, EmittableStmts, TailReturns, MachineReturns;
    hide SourceReturns;
    var code := LowerStmts(sc, c, body.stmts).value.code;
    if fuel: nat :| TailReturns(w, fuel, body, mem) {
      MachineFallsOff(w, sc, c, body, fuel, regs, mem);
      ReturnsSomething(w, fuel, body, mem);
    } else {
      forall v, out
        ensures MachineReturns(w, code, regs, mem, v, out) <==> SourceReturns(w, body, mem, v, out)
      {
        WithoutTail(w, body, mem, v, out);
        BodyPreservesMeaning(w, sc, c, Block(body.stmts, None), regs, mem, v, out);
      }
    }
  }

  // Assignments to anything but a field.

  /** Such an assignment is dropped: its code does what its right-hand side does, and no more. */
  lemma AssignmentDropped(w: World, code: Code, sc: Scope, c: nat, e: Expr, a: nat, regs: Registers, mem: Memory)
    returns (regs': Registers)
    requires e.Assign? && !e.target.Field? && ValueExpr(sc.structName, e.rhs)
    requires LowerExpr(sc, c, e).Done? && At(code, a, LowerExpr(sc, c, e).value.code)
    requires Registered(w, sc) && Params(w, regs) && Holds(w, mem) && Eval(w, e.rhs, mem).Val?
    ensures var r := Eval(w, e.rhs, mem);
            Computes(w, code, a, LowerExpr(sc, c, e).value, c, regs, mem, regs', r.v, r.mem)
  {
    assert LowerExpr(sc, c, e.rhs).Done?;
    var q := LowerExpr(sc, c, e.rhs).value;
    assert LowerExpr(sc, c, e).value == q.(next := q.next + 1);
    hide LowerExpr, Run, Contents, Params, Holds, At, Eval, Registered;
    regs' := SimExpr(w, code, sc, c, e.rhs, a, regs, mem);
  }

  /** A break or continue outside of any loop emits nothing, and hides all that stands behind it. */
  lemma StrayJumpDropped(sc: Scope, c: nat, s: Stmt, rest: seq<Stmt>)
    requires (s.Break? && sc.breaks == []) || (s.Continue? && sc.continues == [])
    ensures LowerStmts(sc, c, [s] + rest) == Done(Piece([], c, UnitReg, true))
  {
    assert ([s] + rest)[0] == s;
  }
}
