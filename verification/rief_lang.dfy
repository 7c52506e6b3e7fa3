/**
 The language the RIEF compiler accepts, after parsing: typed expression and
 statement trees with their meaning. Values are 64-bit words, memory is a map
 from addresses to bytes, and what calls and system calls do is a parameter.
 */
module RiefLang {
  import opened Basics

  const WORD := 0x1_0000_0000_0000_0000

  type word = x: int | 0 <= x < 0x1_0000_0000_0000_0000

  datatype Type = Void | Int(size: nat, uns: bool) | Ptr(base: Type) | Arr(base: Type, count: nat) | Struct(size: nat)

  function Size(t: Type): nat {
    match t
    case Void => 0
    case Int(n, _) => n
    case Ptr(_) => 8
    case Arr(b, n) => n * Size(b)
    case Struct(n) => n
  }

  const I64 := Int(8, false)
  const U64 := Int(8, true)

  function Decay(t: Type): Type { if t.Arr? then Ptr(t.base) else t }

  predicate Scalar(t: Type) { t.Int? || t.Ptr? }

  /** Eight-byte unsigned operands (pointers among them) make an operation unsigned. */
  predicate Wide(t: Type) { t.Ptr? || (t.Int? && t.uns && t.size == 8) }

  datatype Op =
    | Add | Sub | Mul | Div | Mod | Shl | Shr
    | Lt | Le | Gt | Ge | Eq | Ne | BAnd | BXor | BOr

  datatype Place = Local(offset: nat) | Global(offset: nat) | Tls(offset: nat)

  datatype Callee = User(index: nat) | Builtin(number: word) | RawSyscall

  datatype Expr =
    | Const(value: word)
    | Str(offset: nat, length: nat)
    | Var(place: Place, ty: Type)
    | Deref(a: Expr, ty: Type)
    | Member(a: Expr, offset: nat, ty: Type)
    | AddrOf(a: Expr)
    | Cast(a: Expr, ty: Type)
    | Neg(a: Expr)
    | BitNot(a: Expr)
    | Not(a: Expr)
    | Call(fn: Callee, args: seq<Expr>, ty: Type)
    | Binary(op: Op, a: Expr, b: Expr, ty: Type)
    | AndAlso(a: Expr, b: Expr)
    | OrElse(a: Expr, b: Expr)
    | Assign(with: Option<Op>, a: Expr, b: Expr)
    | IncDec(pre: bool, up: bool, a: Expr)
    | Cond(a: Expr, b: Expr, c: Expr)

  datatype Stmt =
    | Block(body: seq<Stmt>)
    | Eval(e: Option<Expr>)
    | Return(e: Option<Expr>)
    | If(cond: Expr, then_: Stmt, else_: Option<Stmt>)
    | While(cond: Expr, loop: Stmt)
    | For(init: Option<Stmt>, test: Option<Expr>, step: Option<Expr>, loop: Stmt)
    | Break
    | Continue

  function TypeOf(e: Expr): Type {
    match e
    case Const(_) => I64
    case Str(_, n) => Arr(Int(1, true), n)
    case Var(_, t) => t
    case Deref(_, t) => t
    case Member(_, _, t) => t
    case AddrOf(a) => Ptr(TypeOf(a))
    case Cast(_, t) => t
    case Neg(a) => Decay(TypeOf(a))
    case BitNot(a) => Decay(TypeOf(a))
    case Not(_) => I64
    case Call(_, _, t) => t
    case Binary(_, _, _, t) => t
    case AndAlso(_, _) => I64
    case OrElse(_, _) => I64
    case Assign(_, a, _) => TypeOf(a)
    case IncDec(_, _, a) => TypeOf(a)
    case Cond(_, b, _) => Decay(TypeOf(b))
  }

  predicate LValue(e: Expr) { e.Var? || e.Deref? || e.Member? }

  /** What the parser guarantees of every tree it builds. */
  ghost predicate Typed(e: Expr) {
    match e
    case Const(_) => true
    case Str(_, _) => true
    case Var(_, _) => true
    case Deref(a, _) => Typed(a)
    case Member(a, _, _) => LValue(a) && Typed(a)
    case AddrOf(a) => LValue(a) && Typed(a)
    case Cast(a, t) => Typed(a) && !t.Arr? && !t.Struct?
    case Neg(a) => Typed(a)
    case BitNot(a) => Typed(a)
    case Not(a) => Typed(a)
    case Call(f, args, t) =>
      && (if f.RawSyscall? then 1 <= |args| <= 7 else |args| <= 6)
      && !t.Arr? && !t.Struct?
      && forall i :: 0 <= i < |args| ==> Typed(args[i])
    case Binary(_, a, b, _) => Typed(a) && Typed(b)
    case AndAlso(a, b) => Typed(a) && Typed(b)
    case OrElse(a, b) => Typed(a) && Typed(b)
    case Assign(_, a, b) => LValue(a) && Scalar(TypeOf(a)) && Typed(a) && Typed(b)
    case IncDec(_, _, a) => LValue(a) && Scalar(TypeOf(a)) && Typed(a)
    case Cond(a, b, c) => Typed(a) && Typed(b) && Typed(c)
  }

  ghost predicate TypedOption(e: Option<Expr>) { e.Some? ==> Typed(e.value) }

  ghost predicate TypedStmt(s: Stmt, inLoop: bool) {
    match s
    case Block(ss) => forall i :: 0 <= i < |ss| ==> TypedStmt(ss[i], inLoop)
    case Eval(e) => TypedOption(e)
    case Return(e) => TypedOption(e)
    case If(c, t, e) => Typed(c) && TypedStmt(t, inLoop) && (e.Some? ==> TypedStmt(e.value, inLoop))
    case While(c, b) => Typed(c) && TypedStmt(b, true)
    case For(i, t, p, b) =>
      (i.Some? ==> TypedStmt(i.value, inLoop)) && TypedOption(t) && TypedOption(p) && TypedStmt(b, true)
    case Break => inLoop
    case Continue => inLoop
  }

  // ---------------------------------------------------------------- words and memory

  function Wrap(x: int): word { x % WORD }
  function Signed(x: word): int { if x >= 0x8000_0000_0000_0000 then x - WORD else x }
  function Bool(b: bool): word { if b then 1 else 0 }

  function Pow2(n: nat): (r: nat)
    ensures r > 0
  {
    if n == 0 then 1 else 2 * Pow2(n - 1)
  }

  /** Quotient rounded toward zero. */
  function Quot(a: int, b: int): int
    requires b != 0
  {
    if (a >= 0) == (b > 0) then Abs(a) / Abs(b) else -(Abs(a) / Abs(b))
  }

  function Abs(x: int): (r: nat)
    ensures x != 0 ==> r > 0
  {
    if x < 0 then -x else x
  }

  type Memory = map<int, int>

  function Byte(m: Memory, a: int): int { if Wrap(a) in m then m[Wrap(a)] % 256 else 0 }

  /** Little-endian read of n bytes. */
  function Load(m: Memory, a: int, n: nat): word {
    Wrap(LoadFrom(m, a, n))
  }

  function LoadFrom(m: Memory, a: int, n: nat): int
    decreases n
  {
    if n == 0 then 0 else Byte(m, a) + 256 * LoadFrom(m, a + 1, n - 1)
  }

  function Store(m: Memory, a: int, n: nat, v: int): Memory
    decreases n
  {
    if n == 0 then m else Store(m[Wrap(a) := v % 256], a + 1, n - 1, v / 256)
  }

  /** Narrowing to a type: only 1-, 2- and 4-byte integers lose bits. */
  function Narrow(t: Type, v: word): word {
    if t.Int? && (t.size == 1 || t.size == 2 || t.size == 4) then Wrap(v % Pow2(8 * t.size)) else v
  }

  /** The value of an object at an address; arrays and structs stand for their address. */
  function Fetch(t: Type, m: Memory, a: word): word {
    if t.Arr? || t.Struct? then a else Load(m, a, Width(t))
  }

  function Width(t: Type): nat {
    if Size(t) == 1 || Size(t) == 2 || Size(t) == 4 then Size(t) else 8
  }

  // ---------------------------------------------------------------- operators

  function Divide(uns: bool, a: word, b: word): Option<word> {
    if b == 0 then None
    else if uns then Some(a / b)
    else
      var q := Quot(Signed(a), Signed(b));
      if q >= 0x8000_0000_0000_0000 then None else Some(Wrap(q))
  }

  function Remainder(uns: bool, a: word, b: word): Option<word> {
    if b == 0 then None
    else if uns then Some(a % b)
    else
      var q := Quot(Signed(a), Signed(b));
      if q >= 0x8000_0000_0000_0000 then None else Some(Wrap(Signed(a) - q * Signed(b)))
  }

  predicate Holds(op: Op, uns: bool, a: word, b: word) {
    var x, y := if uns then a else Signed(a), if uns then b else Signed(b);
    match op
    case Lt => x < y
    case Le => x <= y
    case Gt => x > y
    case Ge => x >= y
    case Eq => a == b
    case _ => a != b
  }

  function Shift(op: Op, uns: bool, a: word, b: word): word {
    var k := Pow2(b % 64);
    if op.Shl? then Wrap(a * k) else if uns then Wrap(a / k) else Wrap(Signed(a) / k)
  }

  /** One binary digit of a bitwise operator. */
  function Bit(op: Op, x: nat, y: nat): (r: nat)
    ensures r <= 1
  {
    if op.BAnd? then (if x == 1 && y == 1 then 1 else 0)
    else if op.BOr? then (if x == 1 || y == 1 then 1 else 0)
    else if x == y then 0 else 1
  }

  /** The lowest n digits. */
  function Digits(op: Op, a: nat, b: nat, n: nat): (r: nat)
    ensures r < Pow2(n)
  {
    if n == 0 then 0 else Bit(op, a % 2, b % 2) + 2 * Digits(op, a / 2, b / 2, n - 1)
  }

  function Bits(op: Op, a: word, b: word): word { Wrap(Digits(op, a, b, 64)) }

  /** Meaning of a binary operator on operands of the given types; None is a machine fault. */
  function Apply(op: Op, left: Type, right: Type, a: word, b: word): Option<word> {
    var l, r := Decay(left), Decay(right);
    var uns := Wide(l) || Wide(r);
    match op
    case Add => Some(if l.Ptr? && !r.Ptr? then Wrap(a + b * Size(l.base)) else Wrap(a + b))
    case Sub =>
      if l.Ptr? && r.Ptr? then Divide(false, Wrap(a - b), Wrap(Size(l.base)))
      else Some(if l.Ptr? then Wrap(a - b * Size(l.base)) else Wrap(a - b))
    case Mul => Some(Wrap(a * b))
    case Div => Divide(uns, a, b)
    case Mod => Remainder(uns, a, b)
    case Shl => Some(Shift(op, uns, a, b))
    case Shr => Some(Shift(op, uns, a, b))
    case BAnd => Some(Bits(op, a, b))
    case BOr => Some(Bits(op, a, b))
    case BXor => Some(Bits(op, a, b))
    case _ => Some(Bool(Holds(op, uns, a, b)))
  }

  function Stride(t: Type): nat { if t.Ptr? then Size(t.base) else 1 }

  // ---------------------------------------------------------------- meaning of expressions

  datatype Done = Done(value: word, mem: Memory)

  /** What the surroundings supply: callees, system calls, and the addresses of the regions. */
  datatype World = World(
    call: (nat, seq<word>, Memory, int) -> Option<Done>,
    sys: (word, seq<word>, Memory) -> Option<Done>,
    data: int, rodata: int, tls: int)

  /** Where the running function's locals live, and the size of its frame. */
  datatype Frame = Frame(base: int, size: nat)

  /** Stack address at which a callee starts when depth temporaries are pending: 16-byte aligned. */
  function CallAddress(f: Frame, depth: nat): int { f.base - f.size - 8 * (depth + depth % 2) }

  function PlaceAddress(w: World, f: Frame, p: Place): word {
    match p
    case Local(off) => Wrap(f.base - off)
    case Global(off) => Wrap(w.data + off)
    case Tls(off) => Wrap(w.tls + off)
  }

  /** Value and memory after an expression; depth counts pending temporaries, which only
      matters for where callees place their frames. */
  function Meaning(e: Expr, w: World, f: Frame, m: Memory, depth: nat): Option<Done>
    decreases e, 1
  {
    match e
    case Const(v) => Some(Done(v, m))
    case Str(off, _) => Some(Done(Wrap(w.rodata + off), m))
    case Var(_, t) =>
      var p :- AddressOf(e, w, f, m, depth);
      Some(Done(Fetch(t, p.mem, p.value), p.mem))
    case Deref(_, t) =>
      var p :- AddressOf(e, w, f, m, depth);
      Some(Done(Fetch(t, p.mem, p.value), p.mem))
    case Member(_, _, t) =>
      var p :- AddressOf(e, w, f, m, depth);
      Some(Done(Fetch(t, p.mem, p.value), p.mem))
    case AddrOf(a) => AddressOf(a, w, f, m, depth)
    case Cast(a, t) =>
      var x :- Meaning(a, w, f, m, depth);
      Some(Done(Narrow(t, x.value), x.mem))
    case Neg(a) =>
      var x :- Meaning(a, w, f, m, depth);
      Some(Done(Wrap(0 - x.value), x.mem))
    case BitNot(a) =>
      var x :- Meaning(a, w, f, m, depth);
      Some(Done(WORD - 1 - x.value, x.mem))
    case Not(a) =>
      var x :- Meaning(a, w, f, m, depth);
      Some(Done(Bool(x.value == 0), x.mem))
    case Call(fn, args, t) =>
      var xs :- Arguments(args, w, f, m, depth);
      var r :- Invoke(fn, w, xs.values, xs.mem, CallAddress(f, depth));
      Some(Done(Narrow(t, r.value), r.mem))
    case Binary(op, a, b, _) =>
      var x :- Meaning(a, w, f, m, depth);
      var y :- Meaning(b, w, f, x.mem, depth + 1);
      var v :- Apply(op, TypeOf(a), TypeOf(b), x.value, y.value);
      Some(Done(v, y.mem))
    case AndAlso(a, b) =>
      var x :- Meaning(a, w, f, m, depth);
      if x.value == 0 then Some(Done(0, x.mem))
      else
        var y :- Meaning(b, w, f, x.mem, depth);
        Some(Done(Bool(y.value != 0), y.mem))
    case OrElse(a, b) =>
      var x :- Meaning(a, w, f, m, depth);
      if x.value != 0 then Some(Done(1, x.mem))
      else
        var y :- Meaning(b, w, f, x.mem, depth);
        Some(Done(Bool(y.value != 0), y.mem))
    case Assign(op, a, b) =>
      var p :- AddressOf(a, w, f, m, depth);
      var t := TypeOf(a);
      if op.None? then
        var y :- Meaning(b, w, f, p.mem, depth + 1);
        var v := Narrow(t, y.value);
        Some(Done(v, Store(y.mem, p.value, Width(t), v)))
      else
        // The old value is read before the right-hand side runs.
        var y :- Meaning(b, w, f, p.mem, depth + 2);
        var u :- Apply(op.value, t, TypeOf(b), Fetch(t, p.mem, p.value), y.value);
        var v := Narrow(t, u);
        Some(Done(v, Store(y.mem, p.value, Width(t), v)))
    case IncDec(pre, up, a) =>
      var p :- AddressOf(a, w, f, m, depth);
      var t := TypeOf(a);
      var before := Fetch(t, p.mem, p.value);
      var after := Narrow(t, Wrap(if up then before + Stride(t) else before - Stride(t)));
      Some(Done(if pre then after else before, Store(p.mem, p.value, Width(t), after)))
    case Cond(a, b, c) =>
      var x :- Meaning(a, w, f, m, depth);
      if x.value != 0 then Meaning(b, w, f, x.mem, depth) else Meaning(c, w, f, x.mem, depth)
  }

  function AddressOf(e: Expr, w: World, f: Frame, m: Memory, depth: nat): Option<Done>
    decreases e, 0
  {
    match e
    case Var(p, _) => Some(Done(PlaceAddress(w, f, p), m))
    case Deref(a, _) => Meaning(a, w, f, m, depth)
    case Member(a, off, _) =>
      var p :- AddressOf(a, w, f, m, depth);
      Some(Done(Wrap(p.value + off), p.mem))
    case _ => None
  }

  datatype Values = Values(values: seq<word>, mem: Memory)

  /** Arguments run left to right, each with its predecessors pending on the stack. */
  function Arguments(args: seq<Expr>, w: World, f: Frame, m: Memory, depth: nat): Option<Values>
    decreases args, 0
  {
    if args == [] then Some(Values([], m))
    else
      var x :- Meaning(args[0], w, f, m, depth);
      var xs :- Arguments(args[1..], w, f, x.mem, depth + 1);
      Some(Values([x.value] + xs.values, xs.mem))
  }

  function Invoke(fn: Callee, w: World, args: seq<word>, m: Memory, at: int): Option<Done> {
    match fn
    case User(i) => w.call(i, args, m, at)
    case Builtin(nr) => w.sys(nr, args, m)
    case RawSyscall => if args == [] then None else w.sys(args[0], args[1..], m)
  }

  // ---------------------------------------------------------------- meaning of statements

  /** How a statement ends; Stuck is a fault or more iterations than the bound allows. */
  datatype Outcome =
    | Normal(mem: Memory) | Broke(mem: Memory) | Continued(mem: Memory)
    | Returned(value: word, mem: Memory) | Stuck

  function RunEval(e: Option<Expr>, w: World, f: Frame, m: Memory): Outcome {
    if e.None? then Normal(m)
    else match Meaning(e.value, w, f, m, 0)
         case None => Stuck
         case Some(x) => Normal(x.mem)
  }

  /** Run a statement; fuel bounds the total number of loop iterations nested along one path. */
  function Run(s: Stmt, w: World, f: Frame, m: Memory, fuel: nat): Outcome
    decreases fuel, s, 1
  {
    match s
    case Block(ss) => RunAll(ss, w, f, m, fuel)
    case Eval(e) => RunEval(e, w, f, m)
    case Return(e) =>
      if e.None? then Returned(0, m)
      else (match Meaning(e.value, w, f, m, 0)
            case None => Stuck
            case Some(x) => Returned(x.value, x.mem))
    case If(c, t, e) =>
      (match Meaning(c, w, f, m, 0)
       case None => Stuck
       case Some(x) =>
         if x.value != 0 then Run(t, w, f, x.mem, fuel)
         else if e.Some? then Run(e.value, w, f, x.mem, fuel)
         else Normal(x.mem))
    case While(c, b) => Loop(Some(c), None, b, w, f, m, fuel)
    case For(i, t, p, b) =>
      if i.None? then Loop(t, p, b, w, f, m, fuel)
      else (match Run(i.value, w, f, m, fuel)
            case Normal(m1) => Loop(t, p, b, w, f, m1, fuel)
            case o => o)
    case Break => Broke(m)
    case Continue => Continued(m)
  }

  function RunAll(ss: seq<Stmt>, w: World, f: Frame, m: Memory, fuel: nat): Outcome
    decreases fuel, ss, 0
  {
    if ss == [] then Normal(m)
    else match Run(ss[0], w, f, m, fuel)
         case Normal(m1) => RunAll(ss[1..], w, f, m1, fuel)
         case o => o
  }

  /** test; body; step, repeated. */
  function Loop(test: Option<Expr>, step: Option<Expr>, body: Stmt, w: World, f: Frame, m: Memory, fuel: nat): Outcome
    decreases fuel, body, 2
  {
    var t := if test.None? then Some(Done(1, m)) else Meaning(test.value, w, f, m, 0);
    if t.None? then Stuck
    else if t.value.value == 0 then Normal(t.value.mem)
    else if fuel == 0 then Stuck
    else
      match Run(body, w, f, t.value.mem, fuel - 1)
      case Broke(m1) => Normal(m1)
      case Returned(v, m1) => Returned(v, m1)
      case Stuck => Stuck
      case o =>
        (match RunEval(step, w, f, o.mem)
         case Normal(m2) => Loop(test, step, body, w, f, m2, fuel - 1)
         case _ => Stuck)
  }
}
