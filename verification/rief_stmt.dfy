/**
 Correctness of statement code: every terminating run of a statement is
 matched by the machine, which ends behind the statement, at the loop's exit
 or continuation, or at the function's epilogue, with an empty stack.
 */
module RiefStmt {
  import opened Basics
  import opened RiefLang
  import opened RiefMachine
  import opened RiefGen
  import opened RiefCorrect

  /** Where the machine stands after a statement of n instructions ended with o. */
  ghost predicate Lands(s: Cpu, t: Cpu, o: Outcome, n: int, g: Targets) {
    && t.stack == [] && t.frame == s.frame && !t.halted
    && match o
       case Normal(m) => t.pc == s.pc + n && t.mem == m
       case Broke(m) => g.brk == Some(t.pc) && t.mem == m
       case Continued(m) => g.cont == Some(t.pc) && t.mem == m
       case Returned(v, m) => g.ret == Some(t.pc) && t.acc == v && t.mem == m
       case Stuck => true
  }

  ghost predicate Placed(code: seq<Instr>, part: seq<Instr>, ws: World, wm: World, s: Cpu) {
    Refines(ws, wm) && CodeAt(code, s.pc, part) && s.stack == [] && AlignedFrame(s.frame) && !s.halted
  }

  ghost predicate Resolved(g: Targets, inLoop: bool) {
    g.ret.Some? && (inLoop ==> g.brk.Some? && g.cont.Some?)
  }

  lemma RunOptional(e: Option<Expr>, code: seq<Instr>, ws: World, wm: World, s: Cpu) returns (t: Cpu)
    requires TypedOption(e) && Placed(code, OptionCode(e), ws, wm, s)
    requires RunEval(e, ws, s.frame, s.mem).Normal?
    ensures Reaches(code, wm, s, t)
    ensures t.pc == s.pc + |OptionCode(e)| && t.mem == RunEval(e, ws, s.frame, s.mem).mem
    ensures t.stack == [] && t.frame == s.frame && !t.halted
    ensures e.Some? ==> t.acc == Meaning(e.value, ws, s.frame, s.mem, 0).value.value
  {
    hide Steps, Reaches, CodeAt, Refines, AlignedFrame, Meaning, ExprCode, Typed;
    if e.None? {
      t := s;
      ReachesSelf(code, wm, s);
    } else {
      t := RunExpr(e.value, code, ws, wm, s, 0);
    }
  }

  /** The compiled statement reaches the same end as the source statement. */
  lemma {:induction false} RunStmt(st: Stmt, code: seq<Instr>, ws: World, wm: World, s: Cpu, g: Targets, fuel: nat, inLoop: bool)
    returns (t: Cpu)
    requires TypedStmt(st, inLoop) && Resolved(g, inLoop) && Placed(code, StmtCode(st, s.pc, g), ws, wm, s)
    requires !Run(st, ws, s.frame, s.mem, fuel).Stuck?
    ensures Reaches(code, wm, s, t)
    ensures Lands(s, t, Run(st, ws, s.frame, s.mem, fuel), StmtSize(st), g)
    decreases fuel, st, 1
  {
    hide Steps, Step, Reaches, CodeAt, Refines, AlignedFrame, Meaning, ExprCode, Loop, LoopCode, RunAll, AllCode;
    match st
    case Block(ss) => t := RunBlock(ss, code, ws, wm, s, g, fuel, inLoop);
    case Eval(e) => t := RunOptional(e, code, ws, wm, s);
    case Return(e) => t := RunReturn(e, code, ws, wm, s, g);
    case If(_, _, _) => t := RunIf(st, code, ws, wm, s, g, fuel, inLoop);
    case While(c, b) => t := RunLoop(Some(c), None, b, code, ws, wm, s, g, fuel);
    case For(i, test, p, b) =>
      if i.None? {
        t := RunLoop(test, p, b, code, ws, wm, s, g, fuel);
      } else {
        t := RunFor(st, code, ws, wm, s, g, fuel, inLoop);
      }
    case Break =>
      ReachesSelf(code, wm, s);
      t := ThenJump(code, wm, s, s, JumpTo(s.pc, g.brk).delta);
    case Continue =>
      ReachesSelf(code, wm, s);
      t := ThenJump(code, wm, s, s, JumpTo(s.pc, g.cont).delta);
  }

  lemma RunReturn(e: Option<Expr>, code: seq<Instr>, ws: World, wm: World, s: Cpu, g: Targets) returns (t: Cpu)
    requires TypedOption(e) && g.ret.Some? && Placed(code, StmtCode(Return(e), s.pc, g), ws, wm, s)
    requires !Run(Return(e), ws, s.frame, s.mem, 0).Stuck?
    ensures Reaches(code, wm, s, t)
    ensures Lands(s, t, Run(Return(e), ws, s.frame, s.mem, 0), StmtSize(Return(e)), g)
  {
    hide Steps, Reaches, CodeAt, Refines, AlignedFrame, Meaning, ExprCode, Alu;
    var c := if e.None? then [Imm(0)] else OptionCode(e);
    CodeAtSplit(code, s.pc, c, [JumpTo(s.pc + |c|, g.ret)]);
    var u: Cpu;
    if e.None? {
      u := Step(Imm(0), wm, s).value;
      AluStep(code, wm, s, Imm(0), u);
    } else {
      u := RunOptional(e, code, ws, wm, s);
    }
    t := ThenJump(code, wm, s, u, JumpTo(s.pc + |c|, g.ret).delta);
  }

  lemma {:induction false} RunBlock(ss: seq<Stmt>, code: seq<Instr>, ws: World, wm: World, s: Cpu, g: Targets, fuel: nat, inLoop: bool)
    returns (t: Cpu)
    requires forall i :: 0 <= i < |ss| ==> TypedStmt(ss[i], inLoop)
    requires Resolved(g, inLoop) && Placed(code, AllCode(ss, s.pc, g), ws, wm, s)
    requires !RunAll(ss, ws, s.frame, s.mem, fuel).Stuck?
    ensures Reaches(code, wm, s, t)
    ensures Lands(s, t, RunAll(ss, ws, s.frame, s.mem, fuel), AllSize(ss), g)
    decreases fuel, ss, 0
  {
    hide Steps, Step, Reaches, CodeAt, Refines, AlignedFrame, Run, StmtCode, StmtSize;
    if ss == [] {
      t := s;
      ReachesSelf(code, wm, s);
    } else {
      StmtCodeSize(ss[0], s.pc, g);
      CodeAtSplit(code, s.pc, StmtCode(ss[0], s.pc, g), AllCode(ss[1..], s.pc + StmtSize(ss[0]), g));
      var u := RunStmt(ss[0], code, ws, wm, s, g, fuel, inLoop);
      if Run(ss[0], ws, s.frame, s.mem, fuel).Normal? {
        t := RunBlock(ss[1..], code, ws, wm, u, g, fuel, inLoop);
        ReachesThen(code, wm, s, u, t);
      } else {
        t := u;
      }
    }
  }

  lemma {:induction false} RunIf(st: Stmt, code: seq<Instr>, ws: World, wm: World, s: Cpu, g: Targets, fuel: nat, inLoop: bool)
    returns (t: Cpu)
    requires st.If? && TypedStmt(st, inLoop) && Resolved(g, inLoop) && Placed(code, StmtCode(st, s.pc, g), ws, wm, s)
    requires !Run(st, ws, s.frame, s.mem, fuel).Stuck?
    ensures Reaches(code, wm, s, t)
    ensures Lands(s, t, Run(st, ws, s.frame, s.mem, fuel), StmtSize(st), g)
    decreases fuel, st, 0
  {
    hide Steps, Step, Reaches, CodeAt, Refines, AlignedFrame, Meaning, ExprCode, Typed;
    var test := ExprCode(st.cond, 0);
    var thenAt := s.pc + |test| + 1;
    var yes := StmtCode(st.then_, thenAt, g);
    StmtCodeSize(st.then_, thenAt, g);
    var elseAt := thenAt + StmtSize(st.then_) + 1;
    var no := if st.else_.None? then [] else StmtCode(st.else_.value, elseAt, g);
    var skip := Jump(if st.else_.None? then 0 else StmtSize(st.else_.value));
    Split5(code, s.pc, test, [JumpZero(StmtSize(st.then_) + 1)], yes, [skip], no);
    var x := RunExpr(st.cond, code, ws, wm, s, 0);
    var y := ThenBranch(code, wm, s, x, JumpZero(StmtSize(st.then_) + 1));
    if x.acc != 0 {
      t := RunStmt(st.then_, code, ws, wm, y, g, fuel, inLoop);
      ReachesThen(code, wm, s, y, t);
      if Run(st.then_, ws, s.frame, y.mem, fuel).Normal? {
        t := ThenJump(code, wm, s, t, skip.delta);
      }
    } else if st.else_.Some? {
      t := RunStmt(st.else_.value, code, ws, wm, y, g, fuel, inLoop);
      ReachesThen(code, wm, s, y, t);
    } else {
      t := y;
    }
  }

  lemma {:induction false} RunFor(st: Stmt, code: seq<Instr>, ws: World, wm: World, s: Cpu, g: Targets, fuel: nat, inLoop: bool)
    returns (t: Cpu)
    requires st.For? && st.init.Some?
    requires TypedStmt(st, inLoop) && Resolved(g, inLoop) && Placed(code, StmtCode(st, s.pc, g), ws, wm, s)
    requires !Run(st, ws, s.frame, s.mem, fuel).Stuck?
    ensures Reaches(code, wm, s, t)
    ensures Lands(s, t, Run(st, ws, s.frame, s.mem, fuel), StmtSize(st), g)
    decreases fuel, st, 0
  {
    hide Steps, Step, Reaches, CodeAt, Refines, AlignedFrame, Loop, LoopCode;
    var i := st.init.value;
    StmtCodeSize(i, s.pc, g);
    CodeAtSplit(code, s.pc, StmtCode(i, s.pc, g), LoopCode(st.test, st.step, st.loop, s.pc + StmtSize(i), g));
    var u := RunStmt(i, code, ws, wm, s, g, fuel, inLoop);
    if Run(i, ws, s.frame, s.mem, fuel).Normal? {
      t := RunLoop(st.test, st.step, st.loop, code, ws, wm, u, g, fuel);
      ReachesThen(code, wm, s, u, t);
    } else {
      t := u;
    }
  }

  /** The value the loop condition is tested on; a missing test counts as true. */
  ghost function TestResult(test: Option<Expr>, w: World, f: Frame, m: Memory): Option<Done> {
    if test.None? then Some(Done(1, m)) else Meaning(test.value, w, f, m, 0)
  }

  lemma RunTest(test: Option<Expr>, exit: int, code: seq<Instr>, ws: World, wm: World, s: Cpu) returns (t: Cpu)
    requires TypedOption(test) && Placed(code, TestCode(test, exit), ws, wm, s)
    requires TestResult(test, ws, s.frame, s.mem).Some?
    ensures Reaches(code, wm, s, t)
    ensures var x := TestResult(test, ws, s.frame, s.mem).value;
            && t.pc == s.pc + TestSize(test) + (if x.value == 0 then exit else 0) && t.mem == x.mem
            && t.stack == [] && t.frame == s.frame && !t.halted
  {
    hide Steps, Step, Reaches, CodeAt, Refines, AlignedFrame, Meaning, ExprCode, Typed;
    if test.None? {
      t := s;
      ReachesSelf(code, wm, s);
    } else {
      CodeAtSplit(code, s.pc, OptionCode(test), [JumpZero(exit)]);
      var x := RunOptional(test, code, ws, wm, s);
      t := ThenBranch(code, wm, s, x, JumpZero(exit));
    }
  }

  /** Where the parts of a loop's code are. */
  lemma LoopParts(test: Option<Expr>, step: Option<Expr>, body: Stmt, code: seq<Instr>, at: int, g: Targets)
    requires CodeAt(code, at, LoopCode(test, step, body, at, g))
    ensures var end, bodyAt := at + LoopSize(test, step, body), at + TestSize(test);
            var contAt := bodyAt + StmtSize(body);
            && CodeAt(code, at, TestCode(test, end - bodyAt))
            && CodeAt(code, bodyAt, StmtCode(body, bodyAt, Targets(Some(end), Some(contAt), g.ret)))
            && CodeAt(code, contAt, OptionCode(step))
            && CodeAt(code, contAt + |OptionCode(step)|, [Jump(at - end)])
  {
    hide CodeAt, StmtCode, StmtSize, OptionCode, TestCode, TestSize;
    var end, bodyAt := at + LoopSize(test, step, body), at + TestSize(test);
    var h := Targets(Some(end), Some(bodyAt + StmtSize(body)), g.ret);
    StmtCodeSize(body, bodyAt, h);
    TestCodeSize(test, end - bodyAt);
    Split4(code, at, TestCode(test, end - bodyAt), StmtCode(body, bodyAt, h), OptionCode(step), [Jump(at - end)]);
  }

  /** One unfolding of a loop that is not stuck. */
  lemma LoopOnce(test: Option<Expr>, step: Option<Expr>, body: Stmt, w: World, f: Frame, m: Memory, fuel: nat)
    requires !Loop(test, step, body, w, f, m, fuel).Stuck?
    ensures var x := TestResult(test, w, f, m);
            && x.Some?
            && if x.value.value == 0 then Loop(test, step, body, w, f, m, fuel) == Normal(x.value.mem)
               else
                 && fuel > 0
                 && var o := Run(body, w, f, x.value.mem, fuel - 1);
                 && !o.Stuck?
                 && (o.Broke? ==> Loop(test, step, body, w, f, m, fuel) == Normal(o.mem))
                 && (o.Returned? ==> Loop(test, step, body, w, f, m, fuel) == o)
                 && (o.Normal? || o.Continued? ==>
                       && RunEval(step, w, f, o.mem).Normal?
                       && Loop(test, step, body, w, f, m, fuel) == Loop(test, step, body, w, f, RunEval(step, w, f, o.mem).mem, fuel - 1))
  {
    hide Meaning, Run, RunEval;
  }

  lemma {:induction false} RunLoop(test: Option<Expr>, step: Option<Expr>, body: Stmt,
                                   code: seq<Instr>, ws: World, wm: World, s: Cpu, g: Targets, fuel: nat)
    returns (t: Cpu)
    requires TypedOption(test) && TypedOption(step) && TypedStmt(body, true) && g.ret.Some?
    requires Placed(code, LoopCode(test, step, body, s.pc, g), ws, wm, s)
    requires !Loop(test, step, body, ws, s.frame, s.mem, fuel).Stuck?
    ensures Reaches(code, wm, s, t)
    ensures Lands(s, t, Loop(test, step, body, ws, s.frame, s.mem, fuel), LoopSize(test, step, body), g)
    decreases fuel, body, 2
  {
    hide Steps, Step, Reaches, CodeAt, Refines, AlignedFrame, Run, RunEval, Loop, StmtCode, OptionCode, TestCode, TestSize;
    hide LoopCode, TestResult, TypedOption, TypedStmt, StmtSize;
    var end := s.pc + LoopSize(test, step, body);
    var bodyAt := s.pc + TestSize(test);
    var h := Targets(Some(end), Some(bodyAt + StmtSize(body)), g.ret);
    LoopParts(test, step, body, code, s.pc, g);
    LoopOnce(test, step, body, ws, s.frame, s.mem, fuel);
    var x := RunTest(test, end - bodyAt, code, ws, wm, s);
    var value := TestResult(test, ws, s.frame, s.mem).value;
    if value.value == 0 {
      t := x;
    } else {
      t := RunStmt(body, code, ws, wm, x, h, fuel - 1, true);
      ReachesThen(code, wm, s, x, t);
      var o := Run(body, ws, s.frame, x.mem, fuel - 1);
      if o.Normal? || o.Continued? {
        assert t.pc == bodyAt + StmtSize(body);
        var p := RunOptional(step, code, ws, wm, t);
        ReachesThen(code, wm, s, t, p);
        var q := ThenJump(code, wm, s, p, s.pc - end);
        assert q.pc == s.pc;
        t := RunLoop(test, step, body, code, ws, wm, q, g, fuel - 1);
        ReachesThen(code, wm, s, q, t);
      }
    }
  }

  lemma TestCodeSize(test: Option<Expr>, exit: int)
    ensures |TestCode(test, exit)| == TestSize(test)
  {
  }
}
