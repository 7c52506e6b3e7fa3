/**
 Whole programs: functions that call each other, with calls cut off at a
 nesting depth. At every depth the machine running the generated code returns
 what the source program returns.
 */
module RiefProgram {
  import opened Basics
  import opened RiefLang
  import opened RiefMachine
  import opened RiefGen
  import opened RiefCorrect
  import opened RiefStmt

  datatype Param = Param(offset: nat, ty: Type)

  /** frame is a multiple of 16 that covers the locals. */
  datatype Func = Func(params: seq<Param>, body: Stmt, frame: nat)

  ghost predicate TypedFunc(f: Func) {
    TypedStmt(f.body, false) && Aligned(f.frame) && forall i :: 0 <= i < |f.params| ==> Scalar(f.params[i].ty)
  }

  // ---------------------------------------------------------------- source

  /** Narrow each argument into its parameter's slot. */
  function BindParams(ps: seq<Param>, xs: seq<word>, f: Frame, m: Memory): Memory
    requires |ps| == |xs|
  {
    if ps == [] then m
    else
      var p := ps[0];
      BindParams(ps[1..], xs[1..], f, Store(m, Wrap(f.base - p.offset), Width(p.ty), Narrow(p.ty, xs[0])))
  }

  /** Calls nested at most n deep, each running loops at most n iterations deep. */
  function SourceCall(prog: seq<Func>, w: World, n: nat, f: nat, xs: seq<word>, m: Memory, at: int): Option<Done>
    decreases n, 0
  {
    if n == 0 || f >= |prog| || |xs| != |prog[f].params| then None
    else
      var fn := prog[f];
      var frame := Frame(at - 16, fn.frame);
      match Run(fn.body, SourceWorld(prog, w, n - 1), frame, BindParams(fn.params, xs, frame, m), n)
      case Returned(v, m1) => Some(Done(v, m1))
      case Normal(m1) => Some(Done(0, m1))
      case _ => None
  }

  function SourceWorld(prog: seq<Func>, w: World, n: nat): World
    decreases n, 1
  {
    w.(call := (f: nat, xs: seq<word>, m: Memory, at: int) => SourceCall(prog, w, n, f, xs, m, at))
  }

  // ---------------------------------------------------------------- generated code

  function ParamCode(i: nat, p: Param): seq<Instr> {
    [ArgToAcc(i), Push, LeaLocal(p.offset), AccToR10, PopAcc] + StoreCode(p.ty)
  }

  function ParamsCode(ps: seq<Param>, i: nat): seq<Instr> {
    if ps == [] then [] else ParamCode(i, ps[0]) + ParamsCode(ps[1..], i + 1)
  }

  /** Prologue, parameter spills, body, a default result of 0, epilogue. */
  function FuncCode(fn: Func, at: int): seq<Instr> {
    var head := [Enter(fn.frame)] + ParamsCode(fn.params, 0);
    var bodyAt := at + |head|;
    var epilogue := bodyAt + StmtSize(fn.body) + 1;
    head + StmtCode(fn.body, bodyAt, Targets(None, None, Some(epilogue))) + [Imm(0)] + [Leave]
  }

  /** Every function's code sits at its entry. */
  ghost predicate Linked(prog: seq<Func>, code: seq<Instr>, entry: seq<int>) {
    && |entry| == |prog|
    && forall f :: 0 <= f < |prog| ==> TypedFunc(prog[f]) && CodeAt(code, entry[f], FuncCode(prog[f], entry[f]))
  }

  lemma LinkOneMore(prog: seq<Func>, fn: Func, code: seq<Instr>, entry: seq<int>)
    requires Linked(prog, code, entry) && TypedFunc(fn)
    ensures Linked(prog + [fn], code + FuncCode(fn, |code|), entry + [|code|])
  {
    hide FuncCode, TypedFunc;
    var code' := code + FuncCode(fn, |code|);
    forall f | 0 <= f < |prog|
      ensures CodeAt(code', entry[f], FuncCode(prog[f], entry[f]))
    {
      var n := |FuncCode(prog[f], entry[f])|;
      assert code'[entry[f]..entry[f] + n] == code[entry[f]..entry[f] + n];
    }
    assert code'[|code|..|code| + |FuncCode(fn, |code|)|] == FuncCode(fn, |code|);
  }

  /** The code of the functions one behind the other, and where each starts. */
  function ProgramCode(prog: seq<Func>, at: nat): seq<Instr> {
    if prog == [] then []
    else
      var before := ProgramCode(prog[..|prog| - 1], at);
      before + FuncCode(prog[|prog| - 1], at + |before|)
  }

  function Entries(prog: seq<Func>, at: nat): (r: seq<int>)
    ensures |r| == |prog|
  {
    if prog == [] then []
    else Entries(prog[..|prog| - 1], at) + [at + |ProgramCode(prog[..|prog| - 1], at)|]
  }

  lemma NoProgram(at: nat)
    ensures ProgramCode([], at) == [] && Entries([], at) == []
  {
  }

  lemma {:induction false} ProgramStep(prog: seq<Func>, fn: Func, at: nat)
    ensures ProgramCode(prog + [fn], at) == ProgramCode(prog, at) + FuncCode(fn, at + |ProgramCode(prog, at)|)
    ensures Entries(prog + [fn], at) == Entries(prog, at) + [at + |ProgramCode(prog, at)|]
  {
    hide FuncCode;
    var all := prog + [fn];
    assert all[..|all| - 1] == prog && all[|all| - 1] == fn;
  }

  lemma {:induction false} ProgramLinked(prog: seq<Func>, before: seq<Instr>)
    requires forall f :: 0 <= f < |prog| ==> TypedFunc(prog[f])
    ensures Linked(prog, before + ProgramCode(prog, |before|), Entries(prog, |before|))
  {
    hide FuncCode, TypedFunc;
    if prog != [] {
      var rest, fn := prog[..|prog| - 1], prog[|prog| - 1];
      ProgramLinked(rest, before);
      var code := before + ProgramCode(rest, |before|);
      LinkOneMore(rest, fn, code, Entries(rest, |before|));
      assert rest + [fn] == prog;
      assert code + FuncCode(fn, |code|) == before + ProgramCode(prog, |before|);
    }
  }

  // ---------------------------------------------------------------- machine

  /** The machine as a callee finds it: arguments in registers, return address and saved base pushed. */
  function Entered(pc: int, xs: seq<word>, m: Memory, at: int): Cpu {
    Cpu(pc, 0, 0, 0, map i: nat | i < |xs| :: xs[i], [], Frame(at - 16, 0), m, false)
  }

  ghost predicate Finishes(code: seq<Instr>, w: World, s: Cpu, t: Cpu) { Reaches(code, w, s, t) && t.halted }

  lemma FinishIsUnique(code: seq<Instr>, w: World, s: Cpu, t: Cpu, u: Cpu)
    requires Finishes(code, w, s, t) && Finishes(code, w, s, u)
    ensures t == u
  {
    hide Step;
    var n: nat :| Steps(code, w, s, n) == Some(t);
    var k: nat :| Steps(code, w, s, k) == Some(u);
    if n <= k {
      StepsCompose(code, w, s, t, n, k - n);
    } else {
      StepsCompose(code, w, s, u, k, n - k);
    }
  }

  ghost function MachineCall(code: seq<Instr>, entry: seq<int>, w: World, n: nat, f: nat, xs: seq<word>, m: Memory, at: int): Option<Done>
    decreases n, 0
  {
    if n == 0 || f >= |entry| then None
    else
      var s := Entered(entry[f], xs, m, at);
      var inner := MachineWorld(code, entry, w, n - 1);
      if exists t :: Finishes(code, inner, s, t) then
        var t :| Finishes(code, inner, s, t);
        Some(Done(t.acc, t.mem))
      else None
  }

  ghost function MachineWorld(code: seq<Instr>, entry: seq<int>, w: World, n: nat): World
    decreases n, 1
  {
    w.(call := (f: nat, xs: seq<word>, m: Memory, at: int) => MachineCall(code, entry, w, n, f, xs, m, at))
  }

  // ---------------------------------------------------------------- correctness

  /** Address of the slot into r10, argument back into the accumulator. */
  lemma RunSlot(i: nat, off: nat, x: word, code: seq<Instr>, w: World, s: Cpu) returns (t: Cpu)
    requires CodeAt(code, s.pc, [ArgToAcc(i)] + [Push] + [LeaLocal(off)] + [AccToR10] + [PopAcc])
    requires !s.halted && i in s.args && s.args[i] == x && s.stack == []
    ensures Reaches(code, w, s, t)
    ensures t == s.(pc := s.pc + 5, acc := x, r10 := Wrap(s.frame.base - off))
  {
    hide Steps, Reaches, CodeAt, Wrap, Alu;
    Split5(code, s.pc, [ArgToAcc(i)], [Push], [LeaLocal(off)], [AccToR10], [PopAcc]);
    var a := SetAcc(s, x);
    AluStep(code, w, s, ArgToAcc(i), a);
    var b := ThenPush(code, w, s, a);
    var c := ThenMove(code, w, s, b, LeaLocal(off));
    var d := ThenMove(code, w, s, c, AccToR10);
    t := Step(PopAcc, w, d).value;
    Then(code, w, s, d, PopAcc, t);
  }

  lemma RunParam(i: nat, p: Param, x: word, code: seq<Instr>, w: World, s: Cpu) returns (t: Cpu)
    requires CodeAt(code, s.pc, ParamCode(i, p)) && !s.halted && i in s.args && s.args[i] == x && s.stack == []
    ensures Reaches(code, w, s, t)
    ensures t.pc == s.pc + |ParamCode(i, p)| && t.stack == [] && t.frame == s.frame && !t.halted && t.args == s.args
    ensures t.mem == Store(s.mem, Wrap(s.frame.base - p.offset), Width(p.ty), Narrow(p.ty, x))
  {
    hide Steps, Reaches, CodeAt, Store, Narrow, Width, CastCode, Wrap, Alu;
    var cc, sc := CastCode(p.ty), [StoreAtR10(Width(p.ty))];
    var head := [ArgToAcc(i)] + [Push] + [LeaLocal(p.offset)] + [AccToR10] + [PopAcc];
    assert ParamCode(i, p) == head + cc + sc;
    Split3(code, s.pc, head, cc, sc);
    var e := RunSlot(i, p.offset, x, code, w, s);
    var f := RunCast(p.ty, code, w, e);
    ReachesThen(code, w, s, e, f);
    t := Step(StoreAtR10(Width(p.ty)), w, f).value;
    Then(code, w, s, f, StoreAtR10(Width(p.ty)), t);
  }

  /** Spill the parameters from number i on. */
  lemma {:induction false} RunParams(ps: seq<Param>, xs: seq<word>, i: nat, code: seq<Instr>, w: World, s: Cpu) returns (t: Cpu)
    requires i + |ps| == |xs| && CodeAt(code, s.pc, ParamsCode(ps, i)) && !s.halted && s.stack == []
    requires forall j: nat :: j < |xs| ==> j in s.args && s.args[j] == xs[j]
    ensures Reaches(code, w, s, t)
    ensures t.pc == s.pc + |ParamsCode(ps, i)| && t.stack == [] && t.frame == s.frame && !t.halted
    ensures t.mem == BindParams(ps, xs[i..], s.frame, s.mem)
    decreases |ps|
  {
    hide Steps, Step, Reaches, CodeAt, Store, Narrow, Width, ParamCode, Wrap;
    if ps == [] {
      t := s;
      ReachesSelf(code, w, s);
    } else {
      CodeAtSplit(code, s.pc, ParamCode(i, ps[0]), ParamsCode(ps[1..], i + 1));
      var u := RunParam(i, ps[0], xs[i], code, w, s);
      t := RunParams(ps[1..], xs, i + 1, code, w, u);
      assert xs[i..][1..] == xs[i + 1..];
      ReachesThen(code, w, s, u, t);
    }
  }

  lemma FrameAligned(at: int)
    requires Aligned(at)
    ensures Aligned(at - 16)
  {
  }

  /** One function, whatever its callees do: the machine finishes with the source result. */
  lemma RunFunc(fn: Func, code: seq<Instr>, ws: World, wm: World, pc: int, xs: seq<word>, m: Memory, at: int, fuel: nat)
    returns (t: Cpu)
    requires TypedFunc(fn) && CodeAt(code, pc, FuncCode(fn, pc)) && Refines(ws, wm) && |xs| == |fn.params| && Aligned(at)
    requires var f := Frame(at - 16, fn.frame);
             var o := Run(fn.body, ws, f, BindParams(fn.params, xs, f, m), fuel);
             o.Normal? || o.Returned?
    ensures Finishes(code, wm, Entered(pc, xs, m, at), t)
    ensures var f := Frame(at - 16, fn.frame);
            var o := Run(fn.body, ws, f, BindParams(fn.params, xs, f, m), fuel);
            t.mem == o.mem && t.acc == if o.Returned? then o.value else 0
  {
    hide Steps, Reaches, CodeAt, Refines, Run, StmtCode, StmtSize, ParamsCode, BindParams, TypedStmt, Alu, Aligned;
    var s := Entered(pc, xs, m, at);
    FrameAligned(at);
    var enter, params := [Enter(fn.frame)], ParamsCode(fn.params, 0);
    var bodyAt := pc + |enter + params|;
    var g := Targets(None, None, Some(bodyAt + StmtSize(fn.body) + 1));
    var body := StmtCode(fn.body, bodyAt, g);
    Split4(code, pc, enter + params, body, [Imm(0)], [Leave]);
    CodeAtSplit(code, pc, enter, params);
    StmtCodeSize(fn.body, bodyAt, g);
    var a := Step(Enter(fn.frame), wm, s).value;
    AluStep(code, wm, s, Enter(fn.frame), a);
    var b := RunParams(fn.params, xs, 0, code, wm, a);
    assert xs[0..] == xs;
    ReachesThen(code, wm, s, a, b);
    var c := RunStmt(fn.body, code, ws, wm, b, g, fuel, false);
    ReachesThen(code, wm, s, b, c);
    if Run(fn.body, ws, b.frame, b.mem, fuel).Normal? {
      var d := Step(Imm(0), wm, c).value;
      Then(code, wm, s, c, Imm(0), d);
      c := d;
    }
    t := Step(Leave, wm, c).value;
    Then(code, wm, s, c, Leave, t);
  }

  /** At every nesting depth the machine world does what the source world does. */
  lemma {:induction false} WorldsAgree(prog: seq<Func>, code: seq<Instr>, entry: seq<int>, w: World, n: nat)
    requires Linked(prog, code, entry)
    ensures Refines(SourceWorld(prog, w, n), MachineWorld(code, entry, w, n))
    decreases n, 1
  {
    hide SourceCall, MachineCall, CodeAt, FuncCode, TypedFunc;
    var ws, wm := SourceWorld(prog, w, n), MachineWorld(code, entry, w, n);
    forall f: nat, xs: seq<word>, m: Memory, at: int | Aligned(at) && ws.call(f, xs, m, at).Some?
      ensures wm.call(f, xs, m, at) == ws.call(f, xs, m, at)
    {
      CallsAgree(prog, code, entry, w, n, f, xs, m, at);
    }
  }

  /**
   Compiler correctness for programs: whenever the source call returns, running
   the generated code returns the same value and the same memory. The first call
   is made on an aligned stack; that every later one is follows, since a
   misaligned call faults.
   */
  lemma {:induction false} CallsAgree(prog: seq<Func>, code: seq<Instr>, entry: seq<int>, w: World, n: nat,
                                      f: nat, xs: seq<word>, m: Memory, at: int)
    requires Linked(prog, code, entry)
    requires Aligned(at) && SourceCall(prog, w, n, f, xs, m, at).Some?
    ensures MachineCall(code, entry, w, n, f, xs, m, at) == SourceCall(prog, w, n, f, xs, m, at)
    decreases n, 0
  {
    hide Run, BindParams, CodeAt, FuncCode, TypedFunc, Reaches, Refines;
    WorldsAgree(prog, code, entry, w, n - 1);
    var ws, wm := SourceWorld(prog, w, n - 1), MachineWorld(code, entry, w, n - 1);
    var t := RunFunc(prog[f], code, ws, wm, entry[f], xs, m, at, n);
    var s := Entered(entry[f], xs, m, at);
    assert Finishes(code, wm, s, t);
    forall u | Finishes(code, wm, s, u)
      ensures u == t
    {
      FinishIsUnique(code, wm, s, t, u);
    }
  }
}
