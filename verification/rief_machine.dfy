/**
 The machine the code generator targets: an accumulator, two scratch
 registers, six argument registers, an expression stack and byte memory.
 Each instruction stands for one fixed byte sequence of the real encoder;
 jumps carry displacements relative to the following instruction.
 */
module RiefMachine {
  import opened Basics
  import opened RiefLang

  datatype Instr =
    | Imm(v: word)
    | RefData(off: nat) | RefRodata(off: nat) | LeaLocal(off: nat) | TlsBase
    | AddImm(k: int) | MulImm(k: int)
    | LoadAcc(n: nat) | StoreAtR10(n: nat) | Extend(n: nat)
    | Push | Pop10 | PopAcc
    | Negate | Complement | SetZero | SetNonzero
    | AccToR10 | AccToR11 | R11ToAcc | ArgToAcc(i: nat)
    | AddR10 | SubR10 | MulR10 | DivAcc(divisor: word)
    | DivR10(uns: bool) | ModR10(uns: bool) | ShiftR10(op: Op, uns: bool)
    | BitsR10(op: Op) | CompareR10(op: Op, uns: bool)
    | ArgFromStack(i: nat, slot: nat) | AccFromStack(slot: nat)
    | Drop(n: nat) | Pad
    | CallFn(f: nat, argc: nat) | Syscall(argc: nat)
    | Jump(delta: int) | JumpZero(delta: int) | JumpNonzero(delta: int)
    | Enter(frame: nat) | Leave
    | AccToArg | Trap

  /** stack holds the pending 8-byte temporaries below the frame, newest last. */
  datatype Cpu = Cpu(
    pc: int, acc: word, r10: word, r11: word, args: map<nat, word>,
    stack: seq<word>, frame: Frame, mem: Memory, halted: bool)

  function Next(s: Cpu): Cpu { s.(pc := s.pc + 1) }
  function SetAcc(s: Cpu, v: word): Cpu { s.(pc := s.pc + 1, acc := v) }

  function ArgList(s: Cpu, n: nat): Option<seq<word>> {
    if forall i: nat | i < n :: i in s.args then Some(seq(n, (i: nat) requires i in s.args => s.args[i])) else None
  }

  function StackPointer(s: Cpu): int { s.frame.base - s.frame.size - 8 * |s.stack| }

  predicate Aligned(x: int) { x % 16 == 0 }

  /** A callee may leave anything in the scratch and argument registers. */
  function AfterCall(s: Cpu, r: Option<Done>): Option<Cpu> {
    match r
    case None => None
    case Some(x) => Some(s.(pc := s.pc + 1, acc := x.value, mem := x.mem, r10 := 0, r11 := 0, args := map[]))
  }

  function AccOr(s: Cpu, v: Option<word>): Option<Cpu> {
    match v
    case None => None
    case Some(x) => Some(SetAcc(s, x))
  }

  /** Register-only instructions. */
  function Alu(i: Instr, s: Cpu): Option<Cpu> {
    match i
    case Negate => Some(SetAcc(s, Wrap(0 - s.acc)))
    case Complement => Some(SetAcc(s, WORD - 1 - s.acc))
    case SetZero => Some(SetAcc(s, Bool(s.acc == 0)))
    case SetNonzero => Some(SetAcc(s, Bool(s.acc != 0)))
    case AddImm(k) => Some(SetAcc(s, Wrap(s.acc + k)))
    case MulImm(k) => Some(SetAcc(s, Wrap(s.acc * k)))
    case Extend(n) => Some(SetAcc(s, Wrap(s.acc % Pow2(8 * n))))
    case AddR10 => Some(SetAcc(s, Wrap(s.acc + s.r10)))
    case SubR10 => Some(SetAcc(s, Wrap(s.r10 - s.acc)))
    case MulR10 => Some(SetAcc(s, Wrap(s.acc * s.r10)))
    case DivAcc(d) => AccOr(s.(r11 := d), Divide(false, s.acc, d))
    case DivR10(uns) => AccOr(s.(r11 := s.acc), Divide(uns, s.r10, s.acc))
    case ModR10(uns) => AccOr(s.(r11 := s.acc), Remainder(uns, s.r10, s.acc))
    case ShiftR10(op, uns) => Some(SetAcc(s, Shift(op, uns, s.r10, s.acc)))
    case BitsR10(op) => Some(SetAcc(s, Bits(op, s.acc, s.r10)))
    case CompareR10(op, uns) => Some(SetAcc(s, Bool(Holds(op, uns, s.r10, s.acc))))
    case _ => None
  }

  /** One instruction; None is a fault. A call faults unless the stack is 16-byte aligned. */
  function Step(i: Instr, w: World, s: Cpu): Option<Cpu> {
    match i
    case Imm(v) => Some(SetAcc(s, v))
    case RefData(off) => Some(SetAcc(s, Wrap(w.data + off)))
    case RefRodata(off) => Some(SetAcc(s, Wrap(w.rodata + off)))
    case LeaLocal(off) => Some(SetAcc(s, Wrap(s.frame.base - off)))
    case TlsBase => Some(SetAcc(s, Wrap(w.tls)))
    case LoadAcc(n) => Some(SetAcc(s, Load(s.mem, s.acc, n)))
    case StoreAtR10(n) => Some(Next(s.(mem := Store(s.mem, s.r10, n, s.acc))))
    case Push => Some(Next(s.(stack := s.stack + [s.acc])))
    case Pop10 =>
      if s.stack == [] then None
      else Some(Next(s.(r10 := s.stack[|s.stack| - 1], stack := s.stack[..|s.stack| - 1])))
    case PopAcc =>
      if s.stack == [] then None
      else Some(Next(s.(acc := s.stack[|s.stack| - 1], stack := s.stack[..|s.stack| - 1])))
    case AccToR10 => Some(Next(s.(r10 := s.acc)))
    case AccToR11 => Some(Next(s.(r11 := s.acc)))
    case R11ToAcc => Some(SetAcc(s, s.r11))
    case ArgToAcc(k) => if k in s.args then Some(SetAcc(s, s.args[k])) else None
    case ArgFromStack(k, slot) =>
      if slot < |s.stack| then Some(Next(s.(args := s.args[k := s.stack[|s.stack| - 1 - slot]]))) else None
    case AccFromStack(slot) =>
      if slot < |s.stack| then Some(SetAcc(s, s.stack[|s.stack| - 1 - slot])) else None
    case Drop(n) =>
      if n <= |s.stack| then Some(Next(s.(stack := s.stack[..|s.stack| - n]))) else None
    case Pad => Some(Next(s.(stack := s.stack + [0])))
    case CallFn(f, n) =>
      (match ArgList(s, n)
       case None => None
       case Some(xs) => if !Aligned(StackPointer(s)) then None else AfterCall(s, w.call(f, xs, s.mem, StackPointer(s))))
    case Syscall(n) =>
      (match ArgList(s, n)
       case None => None
       case Some(xs) => AfterCall(s, w.sys(s.acc, xs, s.mem)))
    case Jump(d) => Some(s.(pc := s.pc + 1 + d))
    case JumpZero(d) => Some(if s.acc == 0 then s.(pc := s.pc + 1 + d) else Next(s))
    case JumpNonzero(d) => Some(if s.acc != 0 then s.(pc := s.pc + 1 + d) else Next(s))
    case Enter(n) => Some(Next(s.(frame := s.frame.(size := n), stack := [])))
    case Leave => Some(s.(halted := true))
    case AccToArg => Some(Next(s.(args := s.args[0 := s.acc])))
    case _ => Alu(i, s)
  }

  /** n instructions from s; running off the code or past a halt is a fault. */
  function Steps(code: seq<Instr>, w: World, s: Cpu, n: nat): Option<Cpu>
    decreases n
  {
    if n == 0 then Some(s)
    else if s.halted || !(0 <= s.pc < |code|) then None
    else match Step(code[s.pc], w, s)
         case None => None
         case Some(t) => Steps(code, w, t, n - 1)
  }

  ghost predicate Reaches(code: seq<Instr>, w: World, s: Cpu, t: Cpu) {
    exists n: nat :: Steps(code, w, s, n) == Some(t)
  }

  lemma ReachesSelf(code: seq<Instr>, w: World, s: Cpu)
    ensures Reaches(code, w, s, s)
  {
    assert Steps(code, w, s, 0) == Some(s);
  }

  lemma ReachesStep(code: seq<Instr>, w: World, s: Cpu, t: Cpu)
    requires !s.halted && 0 <= s.pc < |code| && Step(code[s.pc], w, s) == Some(t)
    ensures Reaches(code, w, s, t)
  {
    hide Step;
    assert Steps(code, w, t, 0) == Some(t);
    assert Steps(code, w, s, 1) == Some(t);
  }

  lemma {:induction false} StepsCompose(code: seq<Instr>, w: World, s: Cpu, t: Cpu, n: nat, k: nat)
    requires Steps(code, w, s, n) == Some(t)
    ensures Steps(code, w, s, n + k) == Steps(code, w, t, k)
    decreases n
  {
    hide Step;
    if n > 0 {
      var u := Step(code[s.pc], w, s).value;
      StepsCompose(code, w, u, t, n - 1, k);
    }
  }

  lemma ReachesThen(code: seq<Instr>, w: World, s: Cpu, t: Cpu, u: Cpu)
    requires Reaches(code, w, s, t) && Reaches(code, w, t, u)
    ensures Reaches(code, w, s, u)
  {
    hide Step;
    var n: nat :| Steps(code, w, s, n) == Some(t);
    var k: nat :| Steps(code, w, t, k) == Some(u);
    StepsCompose(code, w, s, t, n, k);
    assert Steps(code, w, s, n + k) == Some(u);
  }

  /** part sits in code at position at. */
  ghost predicate CodeAt(code: seq<Instr>, at: int, part: seq<Instr>) {
    0 <= at && at + |part| <= |code| && code[at..at + |part|] == part
  }

  lemma CodeAtSplit(code: seq<Instr>, at: int, a: seq<Instr>, b: seq<Instr>)
    requires CodeAt(code, at, a + b)
    ensures CodeAt(code, at, a) && CodeAt(code, at + |a|, b)
  {
    var both := a + b;
    forall i | 0 <= i < |a|
      ensures code[at + i] == a[i]
    {
      assert code[at..at + |both|][i] == both[i];
    }
    forall i | 0 <= i < |b|
      ensures code[at + |a| + i] == b[i]
    {
      assert code[at..at + |both|][|a| + i] == both[|a| + i];
    }
  }

  lemma CodeAtHead(code: seq<Instr>, at: int, part: seq<Instr>)
    requires CodeAt(code, at, part) && part != []
    ensures at < |code| && code[at] == part[0]
  {
    assert code[at..at + |part|][0] == code[at];
  }
}
