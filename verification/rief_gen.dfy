/**
 Code generation as functions: the instructions for an expression, and for a
 statement placed at a given position with known jump targets. The emitter
 that builds the same code in one pass by back-patching is RiefEmit.
 */
module RiefGen {
  import opened Basics
  import opened RiefLang
  import opened RiefMachine

  function CastCode(t: Type): seq<Instr> {
    if t.Int? && (t.size == 1 || t.size == 2 || t.size == 4) then [Extend(t.size)] else []
  }

  function LoadCode(t: Type): seq<Instr> {
    if t.Arr? || t.Struct? then [] else [LoadAcc(Width(t))]
  }

  function StoreCode(t: Type): seq<Instr> { CastCode(t) + [StoreAtR10(Width(t))] }

  /** Left operand in r10, right operand in the accumulator. */
  function OpCode(op: Op, left: Type, right: Type): seq<Instr> {
    var l, r := Decay(left), Decay(right);
    var uns := Wide(l) || Wide(r);
    var scale := if (op.Add? || op.Sub?) && l.Ptr? && !r.Ptr? then [MulImm(Size(l.base))] else [];
    scale +
    match op
    case Add => [AddR10]
    case Sub => if l.Ptr? && r.Ptr? then [SubR10, DivAcc(Wrap(Size(l.base)))] else [SubR10]
    case Mul => [MulR10]
    case Div => [DivR10(uns)]
    case Mod => [ModR10(uns)]
    case Shl => [ShiftR10(op, uns)]
    case Shr => [ShiftR10(op, uns)]
    case BAnd => [BitsR10(op)]
    case BOr => [BitsR10(op)]
    case BXor => [BitsR10(op)]
    case _ => [CompareR10(op, uns)]
  }

  function PlaceCode(p: Place): seq<Instr> {
    match p
    case Local(off) => [LeaLocal(off)]
    case Global(off) => [RefData(off)]
    case Tls(off) => [TlsBase, AddImm(off)]
  }

  /** Load argument registers from the pending values; skip is 1 when the first one is a call number. */
  function RegisterLoads(count: nat, skip: nat, i: nat): seq<Instr>
    requires skip <= 1 && i + skip <= count
    decreases count - i
  {
    if i + skip == count then [] else [ArgFromStack(i, count - 1 - (i + skip))] + RegisterLoads(count, skip, i + 1)
  }

  function DropCode(n: nat): seq<Instr> { if n == 0 then [] else [Drop(n)] }

  /** Everything after the arguments have been pushed on top of depth temporaries. */
  function InvokeCode(fn: Callee, count: nat, depth: nat): seq<Instr>
    requires fn.RawSyscall? ==> count >= 1
  {
    match fn
    case RawSyscall => RegisterLoads(count, 1, 0) + [AccFromStack(count - 1)] + DropCode(count) + [Syscall(count - 1)]
    case Builtin(nr) => RegisterLoads(count, 0, 0) + [Imm(nr)] + DropCode(count) + [Syscall(count)]
    case User(i) =>
      RegisterLoads(count, 0, 0) + DropCode(count)
      + (if depth % 2 == 1 then [Pad, CallFn(i, count), Drop(1)] else [CallFn(i, count)])
  }

  /** Code that leaves the value of e in the accumulator, with depth temporaries pending. */
  function ExprCode(e: Expr, depth: nat): seq<Instr>
    decreases e, 1
  {
    match e
    case Const(v) => [Imm(v)]
    case Str(off, _) => [RefRodata(off)]
    case Var(_, t) => AddrCode(e, depth) + LoadCode(t)
    case Deref(_, t) => AddrCode(e, depth) + LoadCode(t)
    case Member(_, _, t) => AddrCode(e, depth) + LoadCode(t)
    case AddrOf(a) => AddrCode(a, depth)
    case Cast(a, t) => ExprCode(a, depth) + CastCode(t)
    case Neg(a) => ExprCode(a, depth) + [Negate]
    case BitNot(a) => ExprCode(a, depth) + [Complement]
    case Not(a) => ExprCode(a, depth) + [SetZero]
    case Call(fn, args, t) =>
      if fn.RawSyscall? && args == [] then []
      else ArgsCode(args, depth) + InvokeCode(fn, |args|, depth) + CastCode(t)
    case Binary(op, a, b, _) =>
      ExprCode(a, depth) + [Push] + ExprCode(b, depth + 1) + [Pop10] + OpCode(op, TypeOf(a), TypeOf(b))
    case AndAlso(a, b) =>
      var cb := ExprCode(b, depth);
      ExprCode(a, depth) + [JumpZero(|cb|)] + cb + [SetNonzero]
    case OrElse(a, b) =>
      var cb := ExprCode(b, depth);
      ExprCode(a, depth) + [JumpNonzero(|cb|)] + cb + [SetNonzero]
    case Assign(op, a, b) =>
      var t := TypeOf(a);
      if op.None? then AddrCode(a, depth) + [Push] + ExprCode(b, depth + 1) + [Pop10] + StoreCode(t)
      else
        AddrCode(a, depth) + [Push] + LoadCode(t) + [Push] + ExprCode(b, depth + 2)
        + [Pop10] + OpCode(op.value, t, TypeOf(b)) + [Pop10] + StoreCode(t)
    case IncDec(pre, up, a) =>
      var t := TypeOf(a);
      AddrCode(a, depth) + [Push] + LoadCode(t) + [AccToR11]
      + [AddImm(if up then Stride(t) else 0 - Stride(t))] + [Pop10] + StoreCode(t)
      + (if pre then [] else [R11ToAcc])
    case Cond(a, b, c) =>
      var cb, cc := ExprCode(b, depth), ExprCode(c, depth);
      ExprCode(a, depth) + [JumpZero(|cb| + 1)] + cb + [Jump(|cc|)] + cc
  }

  function AddrCode(e: Expr, depth: nat): seq<Instr>
    decreases e, 0
  {
    match e
    case Var(p, _) => PlaceCode(p)
    case Deref(a, _) => ExprCode(a, depth)
    case Member(a, off, _) => AddrCode(a, depth) + [AddImm(off)]
    case _ => []
  }

  function ArgsCode(args: seq<Expr>, depth: nat): seq<Instr>
    decreases args, 0
  {
    if args == [] then [] else ExprCode(args[0], depth) + [Push] + ArgsCode(args[1..], depth + 1)
  }

  // ---------------------------------------------------------------- statements

  /** Where break, continue and return go; an absent target leaves the placeholder displacement 0. */
  datatype Targets = Targets(brk: Option<int>, cont: Option<int>, ret: Option<int>)

  /** An unconditional jump placed at position at. */
  function JumpTo(at: int, target: Option<int>): Instr {
    Jump(if target.None? then 0 else target.value - (at + 1))
  }

  function OptionCode(e: Option<Expr>): seq<Instr> { if e.None? then [] else ExprCode(e.value, 0) }

  /** Number of instructions of a statement; jump targets do not affect it. */
  function StmtSize(s: Stmt): nat
    decreases s, 1
  {
    match s
    case Block(ss) => AllSize(ss)
    case Eval(e) => |OptionCode(e)|
    case Return(e) => (if e.None? then 1 else |OptionCode(e)|) + 1
    case If(c, t, e) =>
      |ExprCode(c, 0)| + 1 + StmtSize(t) + 1 + (if e.None? then 0 else StmtSize(e.value))
    case While(c, b) => |ExprCode(c, 0)| + 1 + StmtSize(b) + 1
    case For(i, t, p, b) =>
      (if i.None? then 0 else StmtSize(i.value)) + (if t.None? then 0 else |OptionCode(t)| + 1)
      + StmtSize(b) + |OptionCode(p)| + 1
    case Break => 1
    case Continue => 1
  }

  function AllSize(ss: seq<Stmt>): nat
    decreases ss, 0
  {
    if ss == [] then 0 else StmtSize(ss[0]) + AllSize(ss[1..])
  }

  /** Code of a statement whose first instruction lands at position at. */
  function StmtCode(s: Stmt, at: int, g: Targets): seq<Instr>
    decreases s, 1
  {
    match s
    case Block(ss) => AllCode(ss, at, g)
    case Eval(e) => OptionCode(e)
    case Return(e) =>
      var c := if e.None? then [Imm(0)] else OptionCode(e);
      c + [JumpTo(at + |c|, g.ret)]
    case If(c, t, e) =>
      var test := ExprCode(c, 0);
      var thenAt := at + |test| + 1;
      var yes := StmtCode(t, thenAt, g);
      var elseAt := thenAt + StmtSize(t) + 1;
      var no := if e.None? then [] else StmtCode(e.value, elseAt, g);
      test + [JumpZero(StmtSize(t) + 1)] + yes
      + [Jump(if e.None? then 0 else StmtSize(e.value))] + no
    case While(c, b) => LoopCode(Some(c), None, b, at, g)
    case For(i, t, p, b) =>
      if i.None? then LoopCode(t, p, b, at, g)
      else StmtCode(i.value, at, g) + LoopCode(t, p, b, at + StmtSize(i.value), g)
    case Break => [JumpTo(at, g.brk)]
    case Continue => [JumpTo(at, g.cont)]
  }

  function AllCode(ss: seq<Stmt>, at: int, g: Targets): seq<Instr>
    decreases ss, 0
  {
    if ss == [] then [] else StmtCode(ss[0], at, g) + AllCode(ss[1..], at + StmtSize(ss[0]), g)
  }

  function TestSize(t: Option<Expr>): nat { if t.None? then 0 else |OptionCode(t)| + 1 }

  function LoopSize(t: Option<Expr>, p: Option<Expr>, b: Stmt): nat {
    TestSize(t) + StmtSize(b) + |OptionCode(p)| + 1
  }

  function TestCode(t: Option<Expr>, exit: int): seq<Instr> {
    if t.None? then [] else OptionCode(t) + [JumpZero(exit)]
  }

  /** test; JumpZero end; body; continue: step; Jump start; end. */
  function LoopCode(t: Option<Expr>, p: Option<Expr>, b: Stmt, at: int, g: Targets): seq<Instr>
    decreases b, 2
  {
    var end := at + LoopSize(t, p, b);
    var bodyAt := at + TestSize(t);
    var contAt := bodyAt + StmtSize(b);
    TestCode(t, end - bodyAt)
    + StmtCode(b, bodyAt, Targets(Some(end), Some(contAt), g.ret))
    + OptionCode(p)
    + [Jump(at - end)]
  }

  lemma {:induction false} StmtCodeSize(s: Stmt, at: int, g: Targets)
    ensures |StmtCode(s, at, g)| == StmtSize(s)
    decreases s, 1
  {
    hide LoopCode, AllCode, ExprCode;
    match s
    case Block(ss) => AllCodeSize(ss, at, g);
    case If(c, t, e) =>
      var thenAt := at + |ExprCode(c, 0)| + 1;
      StmtCodeSize(t, thenAt, g);
      if e.Some? {
        StmtCodeSize(e.value, thenAt + StmtSize(t) + 1, g);
      }
    case While(c, b) => LoopCodeSize(Some(c), None, b, at, g);
    case For(i, t, p, b) =>
      if i.Some? {
        StmtCodeSize(i.value, at, g);
        LoopCodeSize(t, p, b, at + StmtSize(i.value), g);
      } else {
        LoopCodeSize(t, p, b, at, g);
      }
    case _ =>
  }

  lemma {:induction false} AllCodeSize(ss: seq<Stmt>, at: int, g: Targets)
    ensures |AllCode(ss, at, g)| == AllSize(ss)
    decreases ss, 0
  {
    if ss != [] {
      StmtCodeSize(ss[0], at, g);
      AllCodeSize(ss[1..], at + StmtSize(ss[0]), g);
    }
  }

  lemma {:induction false} LoopCodeSize(t: Option<Expr>, p: Option<Expr>, b: Stmt, at: int, g: Targets)
    ensures |LoopCode(t, p, b, at, g)| == LoopSize(t, p, b)
    decreases b, 2
  {
    hide StmtCode, StmtSize, OptionCode;
    var end := at + LoopSize(t, p, b);
    var bodyAt := at + TestSize(t);
    StmtCodeSize(b, bodyAt, Targets(Some(end), Some(bodyAt + StmtSize(b)), g.ret));
  }
}
