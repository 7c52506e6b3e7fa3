/**
 Compiler correctness: the code of every expression and statement computes its
 meaning, leaves the expression stack as it found it, and makes every call on
 a 16-byte aligned stack (a misaligned call would fault).
 */
module RiefCorrect {
  import opened Basics
  import opened RiefLang
  import opened RiefMachine
  import opened RiefGen

  /** Callees of the machine world do whatever the source world says they do. */
  ghost predicate Refines(ws: World, wm: World) {
    && ws.data == wm.data && ws.rodata == wm.rodata && ws.tls == wm.tls
    && (forall f, xs, m, at :: Aligned(at) && ws.call(f, xs, m, at).Some? ==> wm.call(f, xs, m, at) == ws.call(f, xs, m, at))
    && (forall nr, xs, m :: ws.sys(nr, xs, m).Some? ==> wm.sys(nr, xs, m) == ws.sys(nr, xs, m))
  }

  ghost predicate AlignedFrame(f: Frame) { Aligned(f.base) && Aligned(f.size) }

  /** t is s after n instructions' worth of code, with a new value and memory and nothing else visible. */
  ghost predicate Yields(s: Cpu, t: Cpu, n: int, v: word, m: Memory) {
    t.pc == s.pc + n && t.acc == v && t.mem == m && t.stack == s.stack && t.frame == s.frame && !t.halted
  }

  /** One more instruction at the end of a run. */
  lemma Then(code: seq<Instr>, w: World, s: Cpu, t: Cpu, i: Instr, u: Cpu)
    requires Reaches(code, w, s, t) && CodeAt(code, t.pc, [i]) && !t.halted && Step(i, w, t) == Some(u)
    ensures Reaches(code, w, s, u)
  {
    hide Step, Steps;
    CodeAtHead(code, t.pc, [i]);
    ReachesStep(code, w, t, u);
    ReachesThen(code, w, s, t, u);
  }

  lemma ThenJump(code: seq<Instr>, w: World, s: Cpu, t: Cpu, d: int) returns (u: Cpu)
    requires Reaches(code, w, s, t) && CodeAt(code, t.pc, [Jump(d)]) && !t.halted
    ensures Reaches(code, w, s, u) && u == t.(pc := t.pc + 1 + d)
  {
    hide Steps, Reaches, CodeAt, Alu;
    u := Step(Jump(d), w, t).value;
    Then(code, w, s, t, Jump(d), u);
  }

  lemma ThenPush(code: seq<Instr>, w: World, s: Cpu, t: Cpu) returns (u: Cpu)
    requires Reaches(code, w, s, t) && CodeAt(code, t.pc, [Push]) && !t.halted
    ensures Reaches(code, w, s, u) && u == t.(pc := t.pc + 1, stack := t.stack + [t.acc])
  {
    hide Steps, Reaches, CodeAt, Alu;
    u := Step(Push, w, t).value;
    Then(code, w, s, t, Push, u);
  }

  /** Pop into r10 what lies on top of low. */
  lemma ThenPop10(code: seq<Instr>, w: World, s: Cpu, t: Cpu, low: seq<word>, v: word) returns (u: Cpu)
    requires Reaches(code, w, s, t) && CodeAt(code, t.pc, [Pop10]) && !t.halted && t.stack == low + [v]
    ensures Reaches(code, w, s, u) && u == t.(pc := t.pc + 1, r10 := v, stack := low)
  {
    hide Steps, Reaches, CodeAt, Alu;
    u := Step(Pop10, w, t).value;
    assert u.stack == low;
    Then(code, w, s, t, Pop10, u);
  }

  /** One register move, or one immediate. */
  lemma ThenMove(code: seq<Instr>, w: World, s: Cpu, t: Cpu, i: Instr) returns (u: Cpu)
    requires Reaches(code, w, s, t) && CodeAt(code, t.pc, [i]) && !t.halted
    requires i.AccToR10? || i.AccToR11? || i.R11ToAcc? || i.AddImm? || i.Imm? || i.LeaLocal?
    ensures Reaches(code, w, s, u)
    ensures i.AccToR10? ==> u == t.(pc := t.pc + 1, r10 := t.acc)
    ensures i.AccToR11? ==> u == t.(pc := t.pc + 1, r11 := t.acc)
    ensures i.R11ToAcc? ==> u == t.(pc := t.pc + 1, acc := t.r11)
    ensures i.AddImm? ==> u == t.(pc := t.pc + 1, acc := Wrap(t.acc + i.k))
    ensures i.Imm? ==> u == t.(pc := t.pc + 1, acc := i.v)
    ensures i.LeaLocal? ==> u == t.(pc := t.pc + 1, acc := Wrap(t.frame.base - i.off))
  {
    hide Steps, Reaches, CodeAt, Wrap;
    u := Step(i, w, t).value;
    Then(code, w, s, t, i, u);
  }

  lemma Split3(code: seq<Instr>, at: int, a: seq<Instr>, b: seq<Instr>, c: seq<Instr>)
    requires CodeAt(code, at, a + b + c)
    ensures CodeAt(code, at, a) && CodeAt(code, at + |a|, b) && CodeAt(code, at + |a| + |b|, c)
  {
    hide CodeAt;
    CodeAtSplit(code, at, a + b, c);
    CodeAtSplit(code, at, a, b);
  }

  lemma Split4(code: seq<Instr>, at: int, a: seq<Instr>, b: seq<Instr>, c: seq<Instr>, d: seq<Instr>)
    requires CodeAt(code, at, a + b + c + d)
    ensures CodeAt(code, at, a) && CodeAt(code, at + |a|, b) && CodeAt(code, at + |a| + |b|, c)
    ensures CodeAt(code, at + |a| + |b| + |c|, d)
  {
    hide CodeAt;
    CodeAtSplit(code, at, a + b + c, d);
    Split3(code, at, a, b, c);
  }

  lemma Split5(code: seq<Instr>, at: int, a: seq<Instr>, b: seq<Instr>, c: seq<Instr>, d: seq<Instr>, e: seq<Instr>)
    requires CodeAt(code, at, a + b + c + d + e)
    ensures CodeAt(code, at, a) && CodeAt(code, at + |a|, b) && CodeAt(code, at + |a| + |b|, c)
    ensures CodeAt(code, at + |a| + |b| + |c|, d) && CodeAt(code, at + |a| + |b| + |c| + |d|, e)
  {
    hide CodeAt;
    CodeAtSplit(code, at, a + b + c + d, e);
    Split4(code, at, a, b, c, d);
  }

  // ---------------------------------------------------------------- operators

  lemma WrapUnique(z: int, k: int, r: int)
    requires z == k * WORD + r && 0 <= r < WORD
    ensures Wrap(z) == r
  {
  }

  /** Whole multiples of the word size do not show. */
  lemma WrapShift(y: int, q: int)
    ensures Wrap(y + q * WORD) == Wrap(y)
  {
    var k, r := y / WORD, y % WORD;
    assert y + q * WORD == (k + q) * WORD + r;
    WrapUnique(y + q * WORD, k + q, r);
  }

  lemma WrapSum(a: int, x: int)
    ensures Wrap(Wrap(x) + a) == Wrap(a + x)
    ensures Wrap(a - Wrap(x)) == Wrap(a - x)
  {
    var q := x / WORD;
    assert x == q * WORD + Wrap(x);
    WrapShift(Wrap(x) + a, q);
    WrapShift(a - Wrap(x), -q);
  }

  /** One instruction that only sets the accumulator. */
  lemma AluStep(code: seq<Instr>, w: World, s: Cpu, i: Instr, t: Cpu)
    requires CodeAt(code, s.pc, [i]) && !s.halted && Step(i, w, s) == Some(t)
    ensures Reaches(code, w, s, t)
  {
    ReachesSelf(code, w, s);
    Then(code, w, s, s, i, t);
  }

  /** The one instruction of an operator that is neither addition nor subtraction. */
  function PlainInstr(op: Op, uns: bool): Instr
    requires !op.Add? && !op.Sub?
  {
    match op
    case Mul => MulR10
    case Div => DivR10(uns)
    case Mod => ModR10(uns)
    case Shl => ShiftR10(op, uns)
    case Shr => ShiftR10(op, uns)
    case BAnd => BitsR10(op)
    case BOr => BitsR10(op)
    case BXor => BitsR10(op)
    case _ => CompareR10(op, uns)
  }

  lemma PlainCode(op: Op, l: Type, r: Type)
    requires !op.Add? && !op.Sub?
    ensures OpCode(op, l, r) == [PlainInstr(op, Wide(Decay(l)) || Wide(Decay(r)))]
  {
    hide Wide;
  }

  lemma PlainIsAlu(op: Op, uns: bool, w: World, s: Cpu)
    requires !op.Add? && !op.Sub?
    ensures Step(PlainInstr(op, uns), w, s) == Alu(PlainInstr(op, uns), s)
  {
    hide Alu;
  }

  /** What that instruction leaves behind is what the operator means. */
  lemma PlainStep(op: Op, l: Type, r: Type, w: World, s: Cpu) returns (t: Cpu)
    requires !op.Add? && !op.Sub? && Apply(op, l, r, s.r10, s.acc).Some?
    ensures var i := PlainInstr(op, Wide(Decay(l)) || Wide(Decay(r)));
            Step(i, w, s) == Some(t) && t == s.(pc := s.pc + 1, acc := Apply(op, l, r, s.r10, s.acc).value, r11 := t.r11)
  {
    hide Divide, Remainder, Shift, Bits, Holds, Wrap, Bool, Wide, Step;
    var i := PlainInstr(op, Wide(Decay(l)) || Wide(Decay(r)));
    PlainIsAlu(op, Wide(Decay(l)) || Wide(Decay(r)), w, s);
    if op.BAnd? || op.BOr? || op.BXor? {
      BitsCommute(op, s.r10, s.acc);
    }
    t := Alu(i, s).value;
  }

  lemma RunPlainOp(op: Op, l: Type, r: Type, code: seq<Instr>, w: World, s: Cpu) returns (t: Cpu)
    requires !op.Add? && !op.Sub?
    requires CodeAt(code, s.pc, OpCode(op, l, r)) && !s.halted
    requires Apply(op, l, r, s.r10, s.acc).Some?
    ensures Reaches(code, w, s, t)
    ensures Yields(s, t, |OpCode(op, l, r)|, Apply(op, l, r, s.r10, s.acc).value, s.mem)
  {
    hide Step, Apply, OpCode, Steps, CodeAt, Wide, Reaches, PlainInstr;
    PlainCode(op, l, r);
    t := PlainStep(op, l, r, w, s);
    AluStep(code, w, s, PlainInstr(op, Wide(Decay(l)) || Wide(Decay(r))), t);
  }

  lemma BitsCommute(op: Op, a: word, b: word)
    requires op.BAnd? || op.BOr? || op.BXor?
    ensures Bits(op, a, b) == Bits(op, b, a)
  {
    DigitsCommute(op, a, b, 64);
  }

  lemma {:induction false} DigitsCommute(op: Op, a: nat, b: nat, n: nat)
    ensures Digits(op, a, b, n) == Digits(op, b, a, n)
    decreases n
  {
    if n > 0 {
      DigitsCommute(op, a / 2, b / 2, n - 1);
    }
  }

  /** Pointer plus or minus an index, which is scaled first. */
  lemma RunScaled(op: Op, size: nat, code: seq<Instr>, w: World, s: Cpu) returns (t: Cpu)
    requires op.Add? || op.Sub?
    requires CodeAt(code, s.pc, [MulImm(size)] + [if op.Add? then AddR10 else SubR10]) && !s.halted
    ensures Reaches(code, w, s, t)
    ensures Yields(s, t, 2, Wrap(if op.Add? then s.r10 + s.acc * size else s.r10 - s.acc * size), s.mem)
  {
    hide Wrap, Steps, CodeAt, Reaches;
    var rest := if op.Add? then AddR10 else SubR10;
    CodeAtSplit(code, s.pc, [MulImm(size)], [rest]);
    var u := SetAcc(s, Wrap(s.acc * size));
    AluStep(code, w, s, MulImm(size), u);
    t := Step(rest, w, u).value;
    Then(code, w, s, u, rest, t);
    WrapSum(s.r10, s.acc * size);
  }

  lemma RunDistance(size: word, code: seq<Instr>, w: World, s: Cpu) returns (t: Cpu)
    requires CodeAt(code, s.pc, [SubR10] + [DivAcc(size)]) && !s.halted
    requires Divide(false, Wrap(s.r10 - s.acc), size).Some?
    ensures Reaches(code, w, s, t)
    ensures Yields(s, t, 2, Divide(false, Wrap(s.r10 - s.acc), size).value, s.mem)
  {
    hide Divide, Wrap, Steps, CodeAt, Reaches;
    CodeAtSplit(code, s.pc, [SubR10], [DivAcc(size)]);
    var u := SetAcc(s, Wrap(s.r10 - s.acc));
    AluStep(code, w, s, SubR10, u);
    t := Step(DivAcc(size), w, u).value;
    Then(code, w, s, u, DivAcc(size), t);
  }

  lemma RunAddSub(op: Op, l: Type, r: Type, code: seq<Instr>, w: World, s: Cpu) returns (t: Cpu)
    requires op.Add? || op.Sub?
    requires CodeAt(code, s.pc, OpCode(op, l, r)) && !s.halted
    requires Apply(op, l, r, s.r10, s.acc).Some?
    ensures Reaches(code, w, s, t)
    ensures Yields(s, t, |OpCode(op, l, r)|, Apply(op, l, r, s.r10, s.acc).value, s.mem)
  {
    hide Divide, Wrap, Steps, CodeAt, Reaches;
    var dl, dr := Decay(l), Decay(r);
    if dl.Ptr? && !dr.Ptr? {
      assert OpCode(op, l, r) == [MulImm(Size(dl.base))] + [if op.Add? then AddR10 else SubR10];
      t := RunScaled(op, Size(dl.base), code, w, s);
    } else if op.Sub? && dl.Ptr? {
      assert OpCode(op, l, r) == [SubR10] + [DivAcc(Wrap(Size(dl.base)))];
      t := RunDistance(Wrap(Size(dl.base)), code, w, s);
    } else {
      var i := if op.Add? then AddR10 else SubR10;
      assert OpCode(op, l, r) == [i];
      t := Step(i, w, s).value;
      AluStep(code, w, s, i, t);
    }
  }

  lemma RunOp(op: Op, l: Type, r: Type, code: seq<Instr>, w: World, s: Cpu) returns (t: Cpu)
    requires CodeAt(code, s.pc, OpCode(op, l, r)) && !s.halted
    requires Apply(op, l, r, s.r10, s.acc).Some?
    ensures Reaches(code, w, s, t)
    ensures Yields(s, t, |OpCode(op, l, r)|, Apply(op, l, r, s.r10, s.acc).value, s.mem)
  {
    hide *;
    if op.Add? || op.Sub? {
      t := RunAddSub(op, l, r, code, w, s);
    } else {
      t := RunPlainOp(op, l, r, code, w, s);
    }
  }

  // ---------------------------------------------------------------- small pieces

  lemma RunCast(ty: Type, code: seq<Instr>, w: World, s: Cpu) returns (t: Cpu)
    requires CodeAt(code, s.pc, CastCode(ty)) && !s.halted
    ensures Reaches(code, w, s, t)
    ensures t == s.(pc := s.pc + |CastCode(ty)|, acc := Narrow(ty, s.acc))
  {
    hide Wrap, Pow2, Steps, CodeAt;
    if CastCode(ty) == [] {
      t := s;
      ReachesSelf(code, w, s);
    } else {
      t := Step(Extend(ty.size), w, s).value;
      AluStep(code, w, s, Extend(ty.size), t);
    }
  }

  lemma RunFetch(ty: Type, code: seq<Instr>, w: World, s: Cpu) returns (t: Cpu)
    requires CodeAt(code, s.pc, LoadCode(ty)) && !s.halted
    ensures Reaches(code, w, s, t)
    ensures Yields(s, t, |LoadCode(ty)|, Fetch(ty, s.mem, s.acc), s.mem)
  {
    hide Load, Width, Steps, CodeAt, Alu;
    if LoadCode(ty) == [] {
      t := s;
      ReachesSelf(code, w, s);
    } else {
      t := Step(LoadAcc(Width(ty)), w, s).value;
      AluStep(code, w, s, LoadAcc(Width(ty)), t);
    }
  }

  /** Pop the target address and store the accumulator through it. */
  lemma RunStore(ty: Type, code: seq<Instr>, w: World, s: Cpu) returns (t: Cpu)
    requires CodeAt(code, s.pc, [Pop10] + StoreCode(ty)) && !s.halted && |s.stack| > 0
    ensures Reaches(code, w, s, t)
    ensures var v := Narrow(ty, s.acc);
            && t.pc == s.pc + 1 + |StoreCode(ty)| && t.acc == v && t.r11 == s.r11
            && t.mem == Store(s.mem, s.stack[|s.stack| - 1], Width(ty), v)
            && t.stack == s.stack[..|s.stack| - 1] && t.frame == s.frame && !t.halted
  {
    hide Store, Narrow, Width, Steps, CodeAt, CastCode, Alu;
    CodeAtSplit(code, s.pc, [Pop10], StoreCode(ty));
    CodeAtSplit(code, s.pc + 1, CastCode(ty), [StoreAtR10(Width(ty))]);
    var p := Step(Pop10, w, s).value;
    AluStep(code, w, s, Pop10, p);
    var c := RunCast(ty, code, w, p);
    ReachesThen(code, w, s, p, c);
    t := Step(StoreAtR10(Width(ty)), w, c).value;
    Then(code, w, s, c, StoreAtR10(Width(ty)), t);
  }

  lemma RunPlace(p: Place, code: seq<Instr>, w: World, s: Cpu) returns (t: Cpu)
    requires CodeAt(code, s.pc, PlaceCode(p)) && !s.halted
    ensures Reaches(code, w, s, t)
    ensures Yields(s, t, |PlaceCode(p)|, PlaceAddress(w, s.frame, p), s.mem)
  {
    hide Wrap, Steps, CodeAt;
    if p.Tls? {
      assert PlaceCode(p) == [TlsBase] + [AddImm(p.offset)];
      CodeAtSplit(code, s.pc, [TlsBase], [AddImm(p.offset)]);
      var u := Step(TlsBase, w, s).value;
      AluStep(code, w, s, TlsBase, u);
      t := Step(AddImm(p.offset), w, u).value;
      Then(code, w, s, u, AddImm(p.offset), t);
      WrapSum(p.offset, w.tls);
    } else {
      var i := PlaceCode(p)[0];
      assert PlaceCode(p) == [i];
      t := Step(i, w, s).value;
      AluStep(code, w, s, i, t);
    }
  }

  // ---------------------------------------------------------------- expressions

  /** Hypotheses shared by all the lemmas about one expression. */
  ghost predicate Ready(code: seq<Instr>, part: seq<Instr>, ws: World, wm: World, s: Cpu, depth: nat) {
    Refines(ws, wm) && CodeAt(code, s.pc, part) && |s.stack| == depth && AlignedFrame(s.frame) && !s.halted
  }

  /** The code of an expression computes its meaning and restores the stack. */
  lemma {:induction false} RunExpr(e: Expr, code: seq<Instr>, ws: World, wm: World, s: Cpu, depth: nat) returns (t: Cpu)
    requires Typed(e) && Ready(code, ExprCode(e, depth), ws, wm, s, depth)
    requires Meaning(e, ws, s.frame, s.mem, depth).Some?
    ensures Reaches(code, wm, s, t)
    ensures var x := Meaning(e, ws, s.frame, s.mem, depth).value;
            Yields(s, t, |ExprCode(e, depth)|, x.value, x.mem)
    decreases e, 2
  {
    hide Steps, Reaches, CodeAt, Refines;
    match e
    case Const(v) =>
      t := SetAcc(s, v);
      AluStep(code, wm, s, Imm(v), t);
    case Str(off, _) =>
      t := Step(RefRodata(off), wm, s).value;
      AluStep(code, wm, s, RefRodata(off), t);
      RefinesRegions(ws, wm);
    case AddrOf(a) => t := RunAddr(a, code, ws, wm, s, depth);
    case Var(_, _) => t := RunRead(e, code, ws, wm, s, depth);
    case Deref(_, _) => t := RunRead(e, code, ws, wm, s, depth);
    case Member(_, _, _) => t := RunRead(e, code, ws, wm, s, depth);
    case Cast(_, _) => t := RunCastExpr(e, code, ws, wm, s, depth);
    case Neg(_) => t := RunUnary(e, code, ws, wm, s, depth);
    case BitNot(_) => t := RunUnary(e, code, ws, wm, s, depth);
    case Not(_) => t := RunUnary(e, code, ws, wm, s, depth);
    case Call(_, _, _) => t := RunCall(e, code, ws, wm, s, depth);
    case Binary(_, _, _, _) => t := RunBinary(e, code, ws, wm, s, depth);
    case AndAlso(_, _) => t := RunShort(e, code, ws, wm, s, depth);
    case OrElse(_, _) => t := RunShort(e, code, ws, wm, s, depth);
    case Assign(_, _, _) =>
      if e.with.None? {
        t := RunAssign(e, code, ws, wm, s, depth);
      } else {
        t := RunCompound(e, code, ws, wm, s, depth);
      }
    case IncDec(_, _, _) => t := RunIncDec(e, code, ws, wm, s, depth);
    case Cond(_, _, _) => t := RunCond(e, code, ws, wm, s, depth);
  }

  lemma RefinesRegions(ws: World, wm: World)
    requires Refines(ws, wm)
    ensures ws.data == wm.data && ws.rodata == wm.rodata && ws.tls == wm.tls
  {
  }

  lemma {:induction false} RunAddr(e: Expr, code: seq<Instr>, ws: World, wm: World, s: Cpu, depth: nat) returns (t: Cpu)
    requires Typed(e) && LValue(e) && Ready(code, AddrCode(e, depth), ws, wm, s, depth)
    requires AddressOf(e, ws, s.frame, s.mem, depth).Some?
    ensures Reaches(code, wm, s, t)
    ensures var x := AddressOf(e, ws, s.frame, s.mem, depth).value;
            Yields(s, t, |AddrCode(e, depth)|, x.value, x.mem)
    decreases e, 0
  {
    hide Steps, Reaches, CodeAt, Refines, Wrap;
    match e
    case Var(p, _) =>
      RefinesRegions(ws, wm);
      t := RunPlace(p, code, wm, s);
    case Deref(a, _) => t := RunExpr(a, code, ws, wm, s, depth);
    case Member(a, off, _) =>
      CodeAtSplit(code, s.pc, AddrCode(a, depth), [AddImm(off)]);
      var u := RunAddr(a, code, ws, wm, s, depth);
      t := Step(AddImm(off), wm, u).value;
      Then(code, wm, s, u, AddImm(off), t);
  }

  lemma {:induction false} RunRead(e: Expr, code: seq<Instr>, ws: World, wm: World, s: Cpu, depth: nat) returns (t: Cpu)
    requires Typed(e) && LValue(e) && Ready(code, ExprCode(e, depth), ws, wm, s, depth)
    requires Meaning(e, ws, s.frame, s.mem, depth).Some?
    ensures Reaches(code, wm, s, t)
    ensures var x := Meaning(e, ws, s.frame, s.mem, depth).value;
            Yields(s, t, |ExprCode(e, depth)|, x.value, x.mem)
    decreases e, 1
  {
    hide Steps, Reaches, CodeAt, Refines, Fetch, LoadCode, AddressOf, AddrCode;
    CodeAtSplit(code, s.pc, AddrCode(e, depth), LoadCode(e.ty));
    var u := RunAddr(e, code, ws, wm, s, depth);
    t := RunFetch(e.ty, code, wm, u);
    ReachesThen(code, wm, s, u, t);
  }

  /** A one-operand instruction at the end of a run. */
  lemma ThenSet(code: seq<Instr>, w: World, s: Cpu, t: Cpu, i: Instr, v: word) returns (u: Cpu)
    requires Reaches(code, w, s, t) && CodeAt(code, t.pc, [i]) && !t.halted
    requires || (i.Negate? && v == Wrap(0 - t.acc)) || (i.Complement? && v == WORD - 1 - t.acc)
             || (i.SetZero? && v == Bool(t.acc == 0)) || (i.SetNonzero? && v == Bool(t.acc != 0))
    ensures Reaches(code, w, s, u) && u == t.(pc := t.pc + 1, acc := v)
  {
    hide Steps, Reaches, CodeAt, Wrap, Bool;
    u := SetAcc(t, v);
    Then(code, w, s, t, i, u);
  }

  lemma {:induction false} RunCastExpr(e: Expr, code: seq<Instr>, ws: World, wm: World, s: Cpu, depth: nat) returns (t: Cpu)
    requires Typed(e) && e.Cast? && Ready(code, ExprCode(e, depth), ws, wm, s, depth)
    requires Meaning(e, ws, s.frame, s.mem, depth).Some?
    ensures Reaches(code, wm, s, t)
    ensures var x := Meaning(e, ws, s.frame, s.mem, depth).value;
            Yields(s, t, |ExprCode(e, depth)|, x.value, x.mem)
    decreases e, 1
  {
    hide Steps, Reaches, CodeAt, Refines, Narrow, CastCode;
    CodeAtSplit(code, s.pc, ExprCode(e.a, depth), CastCode(e.ty));
    var u := RunExpr(e.a, code, ws, wm, s, depth);
    t := RunCast(e.ty, code, wm, u);
    ReachesThen(code, wm, s, u, t);
  }

  lemma {:induction false} RunUnary(e: Expr, code: seq<Instr>, ws: World, wm: World, s: Cpu, depth: nat) returns (t: Cpu)
    requires Typed(e) && (e.Neg? || e.BitNot? || e.Not?)
    requires Ready(code, ExprCode(e, depth), ws, wm, s, depth)
    requires Meaning(e, ws, s.frame, s.mem, depth).Some?
    ensures Reaches(code, wm, s, t)
    ensures var x := Meaning(e, ws, s.frame, s.mem, depth).value;
            Yields(s, t, |ExprCode(e, depth)|, x.value, x.mem)
    decreases e, 1
  {
    hide Steps, Reaches, CodeAt, Refines, Wrap, Bool, Step;
    var last := if e.Neg? then Negate else if e.BitNot? then Complement else SetZero;
    CodeAtSplit(code, s.pc, ExprCode(e.a, depth), [last]);
    var u := RunExpr(e.a, code, ws, wm, s, depth);
    t := ThenSet(code, wm, s, u, last, Meaning(e, ws, s.frame, s.mem, depth).value.value);
  }

  lemma BinaryParts(e: Expr, w: World, f: Frame, m: Memory, depth: nat)
    requires e.Binary?
    ensures ExprCode(e, depth) == ExprCode(e.a, depth) + [Push] + ExprCode(e.b, depth + 1) + [Pop10] + OpCode(e.op, TypeOf(e.a), TypeOf(e.b))
    ensures Meaning(e, w, f, m, depth).Some? ==>
              && var x := Meaning(e.a, w, f, m, depth);
              && x.Some?
              && var y := Meaning(e.b, w, f, x.value.mem, depth + 1);
              && y.Some?
              && var v := Apply(e.op, TypeOf(e.a), TypeOf(e.b), x.value.value, y.value.value);
              && v.Some? && Meaning(e, w, f, m, depth) == Some(Done(v.value, y.value.mem))
  {
    hide Apply, OpCode, TypeOf;
  }

  /** The short-circuit forms: b runs only if the value of a does not decide. */
  lemma ShortParts(e: Expr, w: World, f: Frame, m: Memory, depth: nat)
    requires e.AndAlso? || e.OrElse?
    ensures var cb := ExprCode(e.b, depth);
            ExprCode(e, depth) == ExprCode(e.a, depth) + [if e.AndAlso? then JumpZero(|cb|) else JumpNonzero(|cb|)] + cb + [SetNonzero]
    ensures Meaning(e, w, f, m, depth).Some? ==>
              && var x := Meaning(e.a, w, f, m, depth);
              && x.Some?
              && if (x.value.value == 0) == e.AndAlso? then
                   Meaning(e, w, f, m, depth) == Some(Done(Bool(x.value.value != 0), x.value.mem))
                 else
                   && var y := Meaning(e.b, w, f, x.value.mem, depth);
                   && y.Some? && Meaning(e, w, f, m, depth) == Some(Done(Bool(y.value.value != 0), y.value.mem))
  {
  }

  lemma CondParts(e: Expr, w: World, f: Frame, m: Memory, depth: nat)
    requires e.Cond?
    ensures var cb, cc := ExprCode(e.b, depth), ExprCode(e.c, depth);
            ExprCode(e, depth) == ExprCode(e.a, depth) + [JumpZero(|cb| + 1)] + cb + [Jump(|cc|)] + cc
    ensures Meaning(e, w, f, m, depth).Some? ==>
              && var x := Meaning(e.a, w, f, m, depth);
              && x.Some?
              && Meaning(e, w, f, m, depth) == Meaning(if x.value.value != 0 then e.b else e.c, w, f, x.value.mem, depth)
  {
  }

  lemma {:induction false} RunBinary(e: Expr, code: seq<Instr>, ws: World, wm: World, s: Cpu, depth: nat) returns (t: Cpu)
    requires Typed(e) && e.Binary? && Ready(code, ExprCode(e, depth), ws, wm, s, depth)
    requires Meaning(e, ws, s.frame, s.mem, depth).Some?
    ensures Reaches(code, wm, s, t)
    ensures var x := Meaning(e, ws, s.frame, s.mem, depth).value;
            Yields(s, t, |ExprCode(e, depth)|, x.value, x.mem)
    decreases e, 1
  {
    hide Steps, Step, Reaches, CodeAt, Refines, Apply, OpCode, TypeOf, ExprCode, Meaning;
    BinaryParts(e, ws, s.frame, s.mem, depth);
    var oc := OpCode(e.op, TypeOf(e.a), TypeOf(e.b));
    Split5(code, s.pc, ExprCode(e.a, depth), [Push], ExprCode(e.b, depth + 1), [Pop10], oc);
    var x := RunExpr(e.a, code, ws, wm, s, depth);
    var p := ThenPush(code, wm, s, x);
    var y := RunExpr(e.b, code, ws, wm, p, depth + 1);
    ReachesThen(code, wm, s, p, y);
    var q := ThenPop10(code, wm, s, y, s.stack, x.acc);
    t := RunOp(e.op, TypeOf(e.a), TypeOf(e.b), code, wm, q);
    ReachesThen(code, wm, s, q, t);
  }

  lemma ThenBranch(code: seq<Instr>, w: World, s: Cpu, t: Cpu, i: Instr) returns (u: Cpu)
    requires Reaches(code, w, s, t) && CodeAt(code, t.pc, [i]) && !t.halted && (i.JumpZero? || i.JumpNonzero?)
    ensures Reaches(code, w, s, u)
    ensures u == t.(pc := if (t.acc == 0) == i.JumpZero? then t.pc + 1 + i.delta else t.pc + 1)
  {
    hide Steps, Reaches, CodeAt, Alu;
    u := Step(i, w, t).value;
    Then(code, w, s, t, i, u);
  }

  lemma {:induction false} RunShort(e: Expr, code: seq<Instr>, ws: World, wm: World, s: Cpu, depth: nat) returns (t: Cpu)
    requires Typed(e) && (e.AndAlso? || e.OrElse?) && Ready(code, ExprCode(e, depth), ws, wm, s, depth)
    requires Meaning(e, ws, s.frame, s.mem, depth).Some?
    ensures Reaches(code, wm, s, t)
    ensures var x := Meaning(e, ws, s.frame, s.mem, depth).value;
            Yields(s, t, |ExprCode(e, depth)|, x.value, x.mem)
    decreases e, 1
  {
    hide Steps, Reaches, CodeAt, Refines, Step, ExprCode, Meaning;
    ShortParts(e, ws, s.frame, s.mem, depth);
    var cb := ExprCode(e.b, depth);
    var skip := if e.AndAlso? then JumpZero(|cb|) else JumpNonzero(|cb|);
    Split4(code, s.pc, ExprCode(e.a, depth), [skip], cb, [SetNonzero]);
    var x := RunExpr(e.a, code, ws, wm, s, depth);
    var y := ThenBranch(code, wm, s, x, skip);
    if (x.acc == 0) != e.AndAlso? {
      var z := RunExpr(e.b, code, ws, wm, y, depth);
      ReachesThen(code, wm, s, y, z);
      t := ThenSet(code, wm, s, z, SetNonzero, Bool(z.acc != 0));
    } else {
      t := ThenSet(code, wm, s, y, SetNonzero, Bool(y.acc != 0));
    }
  }

  lemma {:induction false} RunCond(e: Expr, code: seq<Instr>, ws: World, wm: World, s: Cpu, depth: nat) returns (t: Cpu)
    requires Typed(e) && e.Cond? && Ready(code, ExprCode(e, depth), ws, wm, s, depth)
    requires Meaning(e, ws, s.frame, s.mem, depth).Some?
    ensures Reaches(code, wm, s, t)
    ensures var x := Meaning(e, ws, s.frame, s.mem, depth).value;
            Yields(s, t, |ExprCode(e, depth)|, x.value, x.mem)
    decreases e, 1
  {
    hide Steps, Step, Reaches, CodeAt, Refines, ExprCode, Meaning;
    CondParts(e, ws, s.frame, s.mem, depth);
    var cb, cc := ExprCode(e.b, depth), ExprCode(e.c, depth);
    Split5(code, s.pc, ExprCode(e.a, depth), [JumpZero(|cb| + 1)], cb, [Jump(|cc|)], cc);
    var x := RunExpr(e.a, code, ws, wm, s, depth);
    var y := ThenBranch(code, wm, s, x, JumpZero(|cb| + 1));
    if x.acc != 0 {
      var z := RunExpr(e.b, code, ws, wm, y, depth);
      ReachesThen(code, wm, s, y, z);
      t := ThenJump(code, wm, s, z, |cc|);
    } else {
      t := RunExpr(e.c, code, ws, wm, y, depth);
      ReachesThen(code, wm, s, y, t);
    }
  }

  lemma {:induction false} RunAssign(e: Expr, code: seq<Instr>, ws: World, wm: World, s: Cpu, depth: nat) returns (t: Cpu)
    requires Typed(e) && e.Assign? && e.with.None? && Ready(code, ExprCode(e, depth), ws, wm, s, depth)
    requires Meaning(e, ws, s.frame, s.mem, depth).Some?
    ensures Reaches(code, wm, s, t)
    ensures var x := Meaning(e, ws, s.frame, s.mem, depth).value;
            Yields(s, t, |ExprCode(e, depth)|, x.value, x.mem)
    decreases e, 1
  {
    hide Steps, Step, Reaches, CodeAt, Refines, Store, Narrow, Width, StoreCode, TypeOf;
    var ty := TypeOf(e.a);
    var ca, cb := AddrCode(e.a, depth), ExprCode(e.b, depth + 1);
    assert ca + [Push] + cb + [Pop10] + StoreCode(ty) == ca + [Push] + cb + ([Pop10] + StoreCode(ty));
    Split4(code, s.pc, ca, [Push], cb, [Pop10] + StoreCode(ty));
    var x := RunAddr(e.a, code, ws, wm, s, depth);
    var p := ThenPush(code, wm, s, x);
    var y := RunExpr(e.b, code, ws, wm, p, depth + 1);
    ReachesThen(code, wm, s, p, y);
    t := RunStore(ty, code, wm, y);
    ReachesThen(code, wm, s, y, t);
  }

  lemma {:induction false} RunCompound(e: Expr, code: seq<Instr>, ws: World, wm: World, s: Cpu, depth: nat) returns (t: Cpu)
    requires Typed(e) && e.Assign? && e.with.Some? && Ready(code, ExprCode(e, depth), ws, wm, s, depth)
    requires Meaning(e, ws, s.frame, s.mem, depth).Some?
    ensures Reaches(code, wm, s, t)
    ensures var x := Meaning(e, ws, s.frame, s.mem, depth).value;
            Yields(s, t, |ExprCode(e, depth)|, x.value, x.mem)
    decreases e, 1
  {
    hide Steps, Step, Reaches, CodeAt, Refines, Store, Narrow, Width, StoreCode, TypeOf, LoadCode, Fetch, Apply, OpCode;
    var ty := TypeOf(e.a);
    var ca, cl, cb := AddrCode(e.a, depth), LoadCode(ty), ExprCode(e.b, depth + 2);
    var oc, st := OpCode(e.with.value, ty, TypeOf(e.b)), [Pop10] + StoreCode(ty);
    assert ExprCode(e, depth) == ca + [Push] + cl + [Push] + (cb + [Pop10] + oc + st);
    Split5(code, s.pc, ca, [Push], cl, [Push], cb + [Pop10] + oc + st);
    Split4(code, s.pc + |ca| + 1 + |cl| + 1, cb, [Pop10], oc, st);
    var x := RunAddr(e.a, code, ws, wm, s, depth);
    var p := ThenPush(code, wm, s, x);
    var l := RunFetch(ty, code, wm, p);
    ReachesThen(code, wm, s, p, l);
    var q := ThenPush(code, wm, s, l);
    var y := RunExpr(e.b, code, ws, wm, q, depth + 2);
    ReachesThen(code, wm, s, q, y);
    var r := ThenPop10(code, wm, s, y, p.stack, l.acc);
    var o := RunOp(e.with.value, ty, TypeOf(e.b), code, wm, r);
    ReachesThen(code, wm, s, r, o);
    t := RunStore(ty, code, wm, o);
    ReachesThen(code, wm, s, o, t);
  }

  /** The second half of an increment: add, store back, and restore the old value unless it is a prefix form. */
  lemma RunBump(ty: Type, k: int, pre: bool, code: seq<Instr>, w: World, s: Cpu) returns (t: Cpu)
    requires CodeAt(code, s.pc, [AccToR11] + [AddImm(k)] + ([Pop10] + StoreCode(ty)) + (if pre then [] else [R11ToAcc]))
    requires !s.halted && |s.stack| > 0
    ensures Reaches(code, w, s, t)
    ensures var v := Narrow(ty, Wrap(s.acc + k));
            && t.pc == s.pc + 3 + |StoreCode(ty)| + (if pre then 0 else 1)
            && t.acc == (if pre then v else s.acc)
            && t.mem == Store(s.mem, s.stack[|s.stack| - 1], Width(ty), v)
            && t.stack == s.stack[..|s.stack| - 1] && t.frame == s.frame && !t.halted
  {
    hide Steps, Step, Reaches, CodeAt, Store, Narrow, Width, StoreCode, Wrap;
    var last := if pre then [] else [R11ToAcc];
    Split4(code, s.pc, [AccToR11], [AddImm(k)], [Pop10] + StoreCode(ty), last);
    ReachesSelf(code, w, s);
    var q := ThenMove(code, w, s, s, AccToR11);
    var a := ThenMove(code, w, s, q, AddImm(k));
    t := RunStore(ty, code, w, a);
    ReachesThen(code, w, s, a, t);
    if !pre {
      t := ThenMove(code, w, s, t, R11ToAcc);
    }
  }

  lemma IncDecParts(e: Expr, depth: nat)
    requires e.IncDec?
    ensures var ty := TypeOf(e.a);
            var k := if e.up then Stride(ty) else 0 - Stride(ty);
            ExprCode(e, depth) == AddrCode(e.a, depth) + [Push] + LoadCode(ty)
              + ([AccToR11] + [AddImm(k)] + ([Pop10] + StoreCode(ty)) + (if e.pre then [] else [R11ToAcc]))
  {
    hide AddrCode, LoadCode, StoreCode, TypeOf, Stride;
  }

  lemma IncDecMeaning(e: Expr, w: World, f: Frame, m: Memory, depth: nat)
    requires e.IncDec? && Meaning(e, w, f, m, depth).Some?
    ensures AddressOf(e.a, w, f, m, depth).Some?
    ensures var p := AddressOf(e.a, w, f, m, depth).value;
            var ty := TypeOf(e.a);
            var before := Fetch(ty, p.mem, p.value);
            var after := Narrow(ty, Wrap(before + if e.up then Stride(ty) else 0 - Stride(ty)));
            Meaning(e, w, f, m, depth).value == Done(if e.pre then after else before, Store(p.mem, p.value, Width(ty), after))
  {
    hide AddressOf, TypeOf, Stride, Fetch, Narrow, Store, Width;
  }

  lemma {:induction false} RunIncDec(e: Expr, code: seq<Instr>, ws: World, wm: World, s: Cpu, depth: nat) returns (t: Cpu)
    requires Typed(e) && e.IncDec? && Ready(code, ExprCode(e, depth), ws, wm, s, depth)
    requires Meaning(e, ws, s.frame, s.mem, depth).Some?
    ensures Reaches(code, wm, s, t)
    ensures var x := Meaning(e, ws, s.frame, s.mem, depth).value;
            Yields(s, t, |ExprCode(e, depth)|, x.value, x.mem)
    decreases e, 1
  {
    hide Steps, Step, Reaches, CodeAt, Refines, Store, Narrow, Width, StoreCode, TypeOf, LoadCode, Fetch, Wrap, Stride;
    hide Meaning, ExprCode;
    var ty := TypeOf(e.a);
    var k := if e.up then Stride(ty) else 0 - Stride(ty);
    var ca, cl := AddrCode(e.a, depth), LoadCode(ty);
    var rest := [AccToR11] + [AddImm(k)] + ([Pop10] + StoreCode(ty)) + (if e.pre then [] else [R11ToAcc]);
    IncDecParts(e, depth);
    IncDecMeaning(e, ws, s.frame, s.mem, depth);
    Split4(code, s.pc, ca, [Push], cl, rest);
    var x := RunAddr(e.a, code, ws, wm, s, depth);
    var p := ThenPush(code, wm, s, x);
    var l := RunFetch(ty, code, wm, p);
    ReachesThen(code, wm, s, p, l);
    t := RunBump(ty, k, e.pre, code, wm, l);
    ReachesThen(code, wm, s, l, t);
  }

  lemma {:induction false} RunCall(e: Expr, code: seq<Instr>, ws: World, wm: World, s: Cpu, depth: nat) returns (t: Cpu)
    requires Typed(e) && e.Call? && Ready(code, ExprCode(e, depth), ws, wm, s, depth)
    requires Meaning(e, ws, s.frame, s.mem, depth).Some?
    ensures Reaches(code, wm, s, t)
    ensures var x := Meaning(e, ws, s.frame, s.mem, depth).value;
            Yields(s, t, |ExprCode(e, depth)|, x.value, x.mem)
    decreases e, 1
  {
    hide Steps, Reaches, CodeAt, Refines, Narrow, CastCode, InvokeCode, Invoke, Arguments, ArgsCode;
    Split3(code, s.pc, ArgsCode(e.args, depth), InvokeCode(e.fn, |e.args|, depth), CastCode(e.ty));
    var xs := Arguments(e.args, ws, s.frame, s.mem, depth).value;
    ArgumentCount(e.args, ws, s.frame, s.mem, depth);
    var u := RunArgs(e.args, code, ws, wm, s, depth);
    var v := RunInvoke(e.fn, xs.values, code, ws, wm, s, u, depth);
    ReachesThen(code, wm, s, u, v);
    t := RunCast(e.ty, code, wm, v);
    ReachesThen(code, wm, s, v, t);
  }

  lemma {:induction false} ArgumentCount(args: seq<Expr>, w: World, f: Frame, m: Memory, depth: nat)
    requires Arguments(args, w, f, m, depth).Some?
    ensures |Arguments(args, w, f, m, depth).value.values| == |args|
    decreases |args|
  {
    hide Meaning;
    if args != [] {
      var x := Meaning(args[0], w, f, m, depth).value;
      ArgumentCount(args[1..], w, f, x.mem, depth + 1);
    }
  }

  /** Arguments end up on the stack in order, on top of what was there. */
  lemma {:induction false} RunArgs(args: seq<Expr>, code: seq<Instr>, ws: World, wm: World, s: Cpu, depth: nat) returns (t: Cpu)
    requires forall i :: 0 <= i < |args| ==> Typed(args[i])
    requires Ready(code, ArgsCode(args, depth), ws, wm, s, depth)
    requires Arguments(args, ws, s.frame, s.mem, depth).Some?
    ensures Reaches(code, wm, s, t)
    ensures var xs := Arguments(args, ws, s.frame, s.mem, depth).value;
            && t.pc == s.pc + |ArgsCode(args, depth)| && t.mem == xs.mem && t.stack == s.stack + xs.values
            && t.frame == s.frame && !t.halted
    decreases args, 0
  {
    hide Steps, Step, Reaches, CodeAt, Refines, ExprCode, Meaning;
    if args == [] {
      t := s;
      ReachesSelf(code, wm, s);
    } else {
      Split3(code, s.pc, ExprCode(args[0], depth), [Push], ArgsCode(args[1..], depth + 1));
      var x := RunExpr(args[0], code, ws, wm, s, depth);
      var p := ThenPush(code, wm, s, x);
      t := RunArgs(args[1..], code, ws, wm, p, depth + 1);
      ReachesThen(code, wm, s, p, t);
    }
  }

  /** Registers are filled from the pending arguments. */
  lemma {:induction false} RunRegisterLoads(xs: seq<word>, skip: nat, i: nat, code: seq<Instr>, w: World, s: Cpu, low: seq<word>)
    returns (t: Cpu)
    requires skip <= 1 && i + skip <= |xs| && s.stack == low + xs && !s.halted
    requires CodeAt(code, s.pc, RegisterLoads(|xs|, skip, i))
    requires forall j: nat :: j < i ==> j in s.args && s.args[j] == xs[j + skip]
    ensures Reaches(code, w, s, t)
    ensures t == s.(pc := s.pc + |RegisterLoads(|xs|, skip, i)|, args := t.args)
    ensures forall j: nat :: j < |xs| - skip ==> j in t.args && t.args[j] == xs[j + skip]
    decreases |xs| - i
  {
    hide Steps, Reaches, CodeAt, Alu;
    if i + skip == |xs| {
      t := s;
      ReachesSelf(code, w, s);
    } else {
      var l := ArgFromStack(i, |xs| - 1 - (i + skip));
      CodeAtSplit(code, s.pc, [l], RegisterLoads(|xs|, skip, i + 1));
      var u := Step(l, w, s).value;
      assert s.stack[|s.stack| - 1 - (|xs| - 1 - (i + skip))] == xs[i + skip];
      AluStep(code, w, s, l, u);
      t := RunRegisterLoads(xs, skip, i + 1, code, w, u, low);
      ReachesThen(code, w, s, u, t);
    }
  }

  lemma RunDrop(n: nat, code: seq<Instr>, w: World, s: Cpu) returns (t: Cpu)
    requires CodeAt(code, s.pc, DropCode(n)) && n <= |s.stack| && !s.halted
    ensures Reaches(code, w, s, t)
    ensures t == s.(pc := s.pc + |DropCode(n)|, stack := s.stack[..|s.stack| - n])
  {
    hide Steps, Reaches, CodeAt, Alu;
    if n == 0 {
      t := s;
      ReachesSelf(code, w, s);
    } else {
      t := Step(Drop(n), w, s).value;
      AluStep(code, w, s, Drop(n), t);
    }
  }

  lemma ArgListIs(s: Cpu, xs: seq<word>, skip: nat)
    requires skip <= |xs| && forall j: nat :: j < |xs| - skip ==> j in s.args && s.args[j] == xs[j + skip]
    ensures ArgList(s, |xs| - skip) == Some(xs[skip..])
  {
    var l := ArgList(s, |xs| - skip);
    assert l.Some?;
    assert l.value == xs[skip..];
  }

  /** From arguments pending above s to the result of the call; s is the state before the arguments. */
  lemma RunInvoke(fn: Callee, xs: seq<word>, code: seq<Instr>, ws: World, wm: World, s: Cpu, u: Cpu, depth: nat)
    returns (t: Cpu)
    requires fn.RawSyscall? ==> |xs| >= 1
    requires Refines(ws, wm) && CodeAt(code, u.pc, InvokeCode(fn, |xs|, depth)) && !u.halted
    requires |s.stack| == depth && u.stack == s.stack + xs && u.frame == s.frame && AlignedFrame(s.frame)
    requires Invoke(fn, ws, xs, u.mem, CallAddress(s.frame, depth)).Some?
    ensures Reaches(code, wm, u, t)
    ensures var r := Invoke(fn, ws, xs, u.mem, CallAddress(s.frame, depth)).value;
            && t.pc == u.pc + |InvokeCode(fn, |xs|, depth)| && t.acc == r.value && t.mem == r.mem
            && t.stack == s.stack && t.frame == s.frame && !t.halted
  {
    hide Steps, Reaches, CodeAt, Refines;
    if fn.User? {
      t := RunUserCall(fn.index, xs, code, ws, wm, s, u, depth);
    } else {
      t := RunSyscall(fn, xs, code, ws, wm, s, u);
    }
  }

  /** Pick the call number, drop the arguments, trap. */
  lemma SyscallStep(nr: word, xs: seq<word>, code: seq<Instr>, ws: World, wm: World, s: Cpu) returns (t: Cpu)
    requires Refines(ws, wm) && CodeAt(code, s.pc, [Syscall(|xs|)]) && !s.halted
    requires s.acc == nr && ArgList(s, |xs|) == Some(xs) && ws.sys(nr, xs, s.mem).Some?
    ensures Reaches(code, wm, s, t)
    ensures var r := ws.sys(nr, xs, s.mem).value;
            Yields(s, t, 1, r.value, r.mem)
  {
    hide Steps, Reaches, CodeAt, ArgList, Alu;
    t := Step(Syscall(|xs|), wm, s).value;
    AluStep(code, wm, s, Syscall(|xs|), t);
  }

  lemma PickNumber(fn: Callee, xs: seq<word>, code: seq<Instr>, w: World, s: Cpu, a: Cpu, low: seq<word>) returns (b: Cpu)
    requires (fn.RawSyscall? && |xs| >= 1) || fn.Builtin?
    requires Reaches(code, w, s, a) && a.stack == low + xs && !a.halted
    requires CodeAt(code, a.pc, [if fn.RawSyscall? then AccFromStack(|xs| - 1) else Imm(fn.number)])
    ensures Reaches(code, w, s, b) && b == SetAcc(a, if fn.RawSyscall? then xs[0] else fn.number)
  {
    hide Steps, Reaches, CodeAt, Alu;
    var pick := if fn.RawSyscall? then AccFromStack(|xs| - 1) else Imm(fn.number);
    b := Step(pick, w, a).value;
    if fn.RawSyscall? {
      assert a.stack[|a.stack| - |xs|] == xs[0];
    }
    Then(code, w, s, a, pick, b);
  }

  lemma RunSyscall(fn: Callee, xs: seq<word>, code: seq<Instr>, ws: World, wm: World, s: Cpu, u: Cpu) returns (t: Cpu)
    requires !fn.User? && (fn.RawSyscall? ==> |xs| >= 1)
    requires Refines(ws, wm) && CodeAt(code, u.pc, InvokeCode(fn, |xs|, 0)) && !u.halted
    requires u.stack == s.stack + xs && u.frame == s.frame
    requires Invoke(fn, ws, xs, u.mem, 0).Some?
    ensures Reaches(code, wm, u, t)
    ensures var r := Invoke(fn, ws, xs, u.mem, 0).value;
            && t.pc == u.pc + |InvokeCode(fn, |xs|, 0)| && t.acc == r.value && t.mem == r.mem
            && t.stack == s.stack && t.frame == s.frame && !t.halted
  {
    hide Steps, Step, Reaches, CodeAt, ArgList, RegisterLoads, DropCode, Refines;
    var skip := if fn.RawSyscall? then 1 else 0;
    var pick := if fn.RawSyscall? then AccFromStack(|xs| - 1) else Imm(fn.number);
    Split4(code, u.pc, RegisterLoads(|xs|, skip, 0), [pick], DropCode(|xs|), [Syscall(|xs| - skip)]);
    var a := RunRegisterLoads(xs, skip, 0, code, wm, u, s.stack);
    var b := PickNumber(fn, xs, code, wm, u, a, s.stack);
    var c := RunDrop(|xs|, code, wm, b);
    ReachesThen(code, wm, u, b, c);
    ArgListIs(c, xs, skip);
    assert xs[0..] == xs;
    assert c.stack == s.stack;
    t := SyscallStep(c.acc, xs[skip..], code, ws, wm, c);
    ReachesThen(code, wm, u, c, t);
  }

  /** The padding makes every call's stack pointer a multiple of 16 when the frame is aligned. */
  lemma CallsAligned(f: Frame, depth: nat)
    requires AlignedFrame(f)
    ensures Aligned(CallAddress(f, depth)) && Aligned(CallAddress(f, depth) - 16)
  {
    var b, z, d := f.base / 16, f.size / 16, (depth + depth % 2) / 2;
    assert depth + depth % 2 == 2 * d;
    assert CallAddress(f, depth) == 16 * (b - z - d);
  }

  lemma CallStep(f: nat, xs: seq<word>, code: seq<Instr>, ws: World, wm: World, s: Cpu, frame: Frame, depth: nat) returns (t: Cpu)
    requires Refines(ws, wm) && CodeAt(code, s.pc, [CallFn(f, |xs|)]) && !s.halted
    requires s.frame == frame && AlignedFrame(frame) && |s.stack| == depth + depth % 2 && ArgList(s, |xs|) == Some(xs)
    requires ws.call(f, xs, s.mem, CallAddress(frame, depth)).Some?
    ensures Reaches(code, wm, s, t)
    ensures var r := ws.call(f, xs, s.mem, CallAddress(frame, depth)).value;
            Yields(s, t, 1, r.value, r.mem)
  {
    hide Steps, Reaches, CodeAt, ArgList, Alu, Aligned;
    assert StackPointer(s) == CallAddress(frame, depth);
    CallsAligned(frame, depth);
    t := Step(CallFn(f, |xs|), wm, s).value;
    AluStep(code, wm, s, CallFn(f, |xs|), t);
  }

  /** With an odd number of temporaries one word of padding keeps the call aligned. */
  lemma PaddedCall(f: nat, xs: seq<word>, code: seq<Instr>, ws: World, wm: World, s: Cpu, depth: nat) returns (t: Cpu)
    requires Refines(ws, wm) && CodeAt(code, s.pc, [Pad, CallFn(f, |xs|), Drop(1)]) && !s.halted
    requires |s.stack| == depth && depth % 2 == 1 && AlignedFrame(s.frame)
    requires forall j: nat :: j < |xs| ==> j in s.args && s.args[j] == xs[j]
    requires ws.call(f, xs, s.mem, CallAddress(s.frame, depth)).Some?
    ensures Reaches(code, wm, s, t)
    ensures var r := ws.call(f, xs, s.mem, CallAddress(s.frame, depth)).value;
            Yields(s, t, 3, r.value, r.mem)
  {
    hide Steps, Reaches, CodeAt, ArgList, Alu, Refines, CallAddress, AfterCall, AlignedFrame;
    assert [Pad, CallFn(f, |xs|), Drop(1)] == [Pad] + [CallFn(f, |xs|)] + [Drop(1)];
    Split3(code, s.pc, [Pad], [CallFn(f, |xs|)], [Drop(1)]);
    var c := Step(Pad, wm, s).value;
    AluStep(code, wm, s, Pad, c);
    assert xs[0..] == xs;
    ArgListIs(c, xs, 0);
    var d := CallStep(f, xs, code, ws, wm, c, s.frame, depth);
    ReachesThen(code, wm, s, c, d);
    t := Step(Drop(1), wm, d).value;
    assert t.stack == s.stack;
    Then(code, wm, s, d, Drop(1), t);
  }

  lemma RunUserCall(f: nat, xs: seq<word>, code: seq<Instr>, ws: World, wm: World, s: Cpu, u: Cpu, depth: nat) returns (t: Cpu)
    requires Refines(ws, wm) && CodeAt(code, u.pc, InvokeCode(User(f), |xs|, depth)) && !u.halted
    requires |s.stack| == depth && u.stack == s.stack + xs && u.frame == s.frame && AlignedFrame(s.frame)
    requires ws.call(f, xs, u.mem, CallAddress(s.frame, depth)).Some?
    ensures Reaches(code, wm, u, t)
    ensures var r := ws.call(f, xs, u.mem, CallAddress(s.frame, depth)).value;
            && t.pc == u.pc + |InvokeCode(User(f), |xs|, depth)| && t.acc == r.value && t.mem == r.mem
            && t.stack == s.stack && t.frame == s.frame && !t.halted
  {
    hide Steps, Step, Reaches, CodeAt, ArgList, RegisterLoads, DropCode, Refines, CallAddress, AlignedFrame;
    var tail := if depth % 2 == 1 then [Pad, CallFn(f, |xs|), Drop(1)] else [CallFn(f, |xs|)];
    Split3(code, u.pc, RegisterLoads(|xs|, 0, 0), DropCode(|xs|), tail);
    var a := RunRegisterLoads(xs, 0, 0, code, wm, u, s.stack);
    var b := RunDrop(|xs|, code, wm, a);
    ReachesThen(code, wm, u, a, b);
    assert b.stack == s.stack;
    if depth % 2 == 1 {
      t := PaddedCall(f, xs, code, ws, wm, b, depth);
    } else {
      assert xs[0..] == xs;
      ArgListIs(b, xs, 0);
      t := CallStep(f, xs, code, ws, wm, b, s.frame, depth);
    }
    ReachesThen(code, wm, u, b, t);
  }
}
