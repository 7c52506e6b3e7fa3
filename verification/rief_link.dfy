/**
 The last step of generate and what comes of it: every recorded call is aimed at the
 entry of its function, and the program runs on one machine that keeps return
 addresses, from the entry stub to the exit with main's result.
 */
module RiefLink {
  import opened Basics
  import opened RiefLang
  import opened RiefMachine
  import opened RiefGen
  import opened RiefProgram

  /** An instruction as it stands in the finished code: a call carries a displacement. */
  datatype LinkedInstr = Plain(instr: Instr) | CallRel(delta: int, argc: nat)

  /** A recorded call: the position to patch and the function that is called. */
  datatype Site = Site(at: nat, fn: nat)

  const MAX_CALLS: nat := 8192

  /** The calls in the code, in order. */
  function Sites(code: seq<Instr>): (r: seq<Site>)
    ensures forall i :: 0 <= i < |r| ==> r[i].at < |code| && code[r[i].at].CallFn? && r[i].fn == code[r[i].at].f
    ensures forall k :: 0 <= k < |code| && code[k].CallFn? ==> Site(k, code[k].f) in r
  {
    if code == [] then []
    else
      var n := |code| - 1;
      Sites(code[..n]) + if code[n].CallFn? then [Site(n, code[n].f)] else []
  }

  /** What is emitted for an instruction before the entries are known. */
  function Blank(i: Instr): LinkedInstr { if i.CallFn? then CallRel(0, i.argc) else Plain(i) }

  function Target(entry: seq<int>, f: nat): int { if f < |entry| then entry[f] else 0 }

  /** The instruction at position at, aimed. */
  function Aimed(i: Instr, at: nat, entry: seq<int>): LinkedInstr {
    if i.CallFn? then CallRel(Target(entry, i.f) - (at + 1), i.argc) else Plain(i)
  }

  function Resolved(code: seq<Instr>, entry: seq<int>): (r: seq<LinkedInstr>)
    ensures |r| == |code|
  {
    seq(|code|, k requires 0 <= k < |code| => Aimed(code[k], k, entry))
  }

  lemma NoSites()
    ensures Sites([]) == []
  {
  }

  lemma SitesStep(code: seq<Instr>, n: nat)
    requires n < |code|
    ensures Sites(code[..n + 1]) == Sites(code[..n]) + if code[n].CallFn? then [Site(n, code[n].f)] else []
  {
    assert code[..n + 1][..n] == code[..n];
  }

  lemma {:induction false} SitesGrow(code: seq<Instr>, n: nat)
    requires n <= |code|
    ensures |Sites(code[..n])| <= |Sites(code)|
    decreases |code| - n
  {
    if n < |code| {
      SitesStep(code, n);
      SitesGrow(code, n + 1);
    } else {
      assert code[..n] == code;
    }
  }

  /** Emission with its table of calls: a call gets displacement 0 and is recorded; the table has a limit. */
  method Record(code: seq<Instr>) returns (ok: bool, out: seq<LinkedInstr>, calls: seq<Site>)
    ensures ok <==> |Sites(code)| <= MAX_CALLS
    ensures ok ==> calls == Sites(code) && |out| == |code| && forall k :: 0 <= k < |code| ==> out[k] == Blank(code[k])
  {
    hide Sites;
    out, calls := [], [];
    assert code[..0] == [];
    NoSites();
    var n := 0;
    while n < |code|
      invariant 0 <= n <= |code| == |out| + (|code| - n) && calls == Sites(code[..n]) && |calls| <= MAX_CALLS
      invariant forall k :: 0 <= k < n ==> out[k] == Blank(code[k])
    {
      SitesStep(code, n);
      SitesGrow(code, n + 1);
      if code[n].CallFn? {
        if |calls| == MAX_CALLS {
          return false, out, calls;
        }
        calls := calls + [Site(n, code[n].f)];
      }
      out := out + [Blank(code[n])];
      n := n + 1;
    }
    assert code[..n] == code;
    return true, out, calls;
  }

  /** Aim every recorded call at the entry of its function. */
  method FixCalls(blank: seq<LinkedInstr>, calls: seq<Site>, entry: seq<int>, ghost code: seq<Instr>) returns (out: seq<LinkedInstr>)
    requires calls == Sites(code) && |blank| == |code| && forall k :: 0 <= k < |code| ==> blank[k] == Blank(code[k])
    ensures out == Resolved(code, entry)
  {
    hide Sites;
    out := blank;
    var i := 0;
    while i < |calls|
      invariant 0 <= i <= |calls| && |out| == |code|
      invariant forall k :: 0 <= k < |code| ==> out[k] == Blank(code[k]) || out[k] == Aimed(code[k], k, entry)
      invariant forall k :: 0 <= k < |code| && (!code[k].CallFn? || Site(k, code[k].f) in calls[..i]) ==> out[k] == Aimed(code[k], k, entry)
    {
      var c := calls[i];
      assert code[c.at].CallFn?;
      assert calls[..i + 1] == calls[..i] + [c];
      out := out[c.at := out[c.at].(delta := Target(entry, c.fn) - (c.at + 1))];
      i := i + 1;
    }
    assert calls[..i] == calls;
    assert out == Resolved(code, entry);
  }

  // ---------------------------------------------------------------- one machine with return addresses

  /** The running function and the callers that wait for it, newest last. */
  datatype Flat = Flat(cpu: Cpu, callers: seq<Cpu>)

  function Keep(x: Flat, s: Option<Cpu>): Option<Flat> {
    match s
    case None => None
    case Some(t) => Some(x.(cpu := t))
  }

  function FlatStep(code: seq<LinkedInstr>, w: World, x: Flat): Option<Flat> {
    var s := x.cpu;
    if s.halted || !(0 <= s.pc < |code|) then None
    else
      match code[s.pc]
      case CallRel(d, n) =>
        (match ArgList(s, n)
         case None => None
         case Some(xs) =>
           if !Aligned(StackPointer(s)) then None
           else Some(Flat(Entered(s.pc + 1 + d, xs, s.mem, StackPointer(s)), x.callers + [s])))
      case Plain(i) =>
        if i.CallFn? then None
        else if i.Leave? then
          if x.callers == [] then None
          else
            var c := x.callers[|x.callers| - 1];
            Some(Flat(c.(pc := c.pc + 1, acc := s.acc, mem := s.mem, r10 := 0, r11 := 0, args := map[]), x.callers[..|x.callers| - 1]))
        else Keep(x, Step(i, w, s))
  }

  function FlatSteps(code: seq<LinkedInstr>, w: World, x: Flat, n: nat): Option<Flat>
    decreases n
  {
    if n == 0 then Some(x)
    else match FlatStep(code, w, x)
         case None => None
         case Some(y) => FlatSteps(code, w, y, n - 1)
  }

  ghost predicate FlatReaches(code: seq<LinkedInstr>, w: World, x: Flat, y: Flat) {
    exists n: nat :: FlatSteps(code, w, x, n) == Some(y)
  }

  lemma {:induction false} FlatCompose(code: seq<LinkedInstr>, w: World, x: Flat, y: Flat, n: nat, k: nat)
    requires FlatSteps(code, w, x, n) == Some(y)
    ensures FlatSteps(code, w, x, n + k) == FlatSteps(code, w, y, k)
    decreases n
  {
    hide FlatStep;
    if n > 0 {
      FlatCompose(code, w, FlatStep(code, w, x).value, y, n - 1, k);
    }
  }

  lemma FlatSelf(code: seq<LinkedInstr>, w: World, x: Flat)
    ensures FlatReaches(code, w, x, x)
  {
    assert FlatSteps(code, w, x, 0) == Some(x);
  }

  lemma FlatOne(code: seq<LinkedInstr>, w: World, x: Flat, y: Flat)
    requires FlatStep(code, w, x) == Some(y)
    ensures FlatReaches(code, w, x, y)
  {
    hide FlatStep;
    assert FlatSteps(code, w, y, 0) == Some(y);
    assert FlatSteps(code, w, x, 1) == Some(y);
  }

  lemma FlatThen(code: seq<LinkedInstr>, w: World, x: Flat, y: Flat, z: Flat)
    requires FlatReaches(code, w, x, y) && FlatReaches(code, w, y, z)
    ensures FlatReaches(code, w, x, z)
  {
    hide FlatStep;
    var n: nat :| FlatSteps(code, w, x, n) == Some(y);
    var k: nat :| FlatSteps(code, w, y, k) == Some(z);
    FlatCompose(code, w, x, y, n, k);
    assert FlatSteps(code, w, x, n + k) == Some(z);
  }

  // ---------------------------------------------------------------- the flat machine does what nested calls do

  lemma AluStays(i: Instr, s: Cpu)
    ensures Alu(i, s).Some? ==> Alu(i, s).value.halted == s.halted
  {
    hide Wrap, Divide, Remainder, Shift, Bits, Holds, Pow2, Bool;
  }

  /** Only a call looks at what callees do. */
  lemma CallFree(i: Instr, w: World, call: (nat, seq<word>, Memory, int) -> Option<Done>, s: Cpu)
    requires !i.CallFn?
    ensures Step(i, w.(call := call), s) == Step(i, w, s)
  {
    hide Wrap, Alu, Load, Store, ArgList;
  }

  lemma StepStays(i: Instr, w: World, s: Cpu)
    requires !i.Leave?
    ensures Step(i, w, s).Some? ==> Step(i, w, s).value.halted == s.halted
  {
    hide Wrap, Alu, Load, Store, ArgList, Aligned;
    AluStays(i, s);
  }

  lemma PlainStep(i: Instr, code: seq<Instr>, entry: seq<int>, w: World, n: nat, s: Cpu)
    requires !i.CallFn? && !i.Leave?
    ensures Step(i, MachineWorld(code, entry, w, n), s) == Step(i, w, s)
    ensures Step(i, w, s).Some? ==> Step(i, w, s).value.halted == s.halted
  {
    hide Step, MachineCall;
    CallFree(i, w, MachineWorld(code, entry, w, n).call, s);
    StepStays(i, w, s);
  }

  /** A call that returns has a callee that finishes. */
  lemma CalleeFinishes(code: seq<Instr>, entry: seq<int>, w: World, n: nat, f: nat, xs: seq<word>, m: Memory, at: int) returns (t: Cpu, k: nat)
    requires MachineCall(code, entry, w, n, f, xs, m, at).Some?
    ensures n > 0 && f < |entry| && t.halted && MachineCall(code, entry, w, n, f, xs, m, at) == Some(Done(t.acc, t.mem))
    ensures Steps(code, MachineWorld(code, entry, w, n - 1), Entered(entry[f], xs, m, at), k) == Some(t)
  {
    hide Steps;
    var inner, s := MachineWorld(code, entry, w, n - 1), Entered(entry[f], xs, m, at);
    var u :| Finishes(code, inner, s, u);
    forall v | Finishes(code, inner, s, v)
      ensures v == u
    {
      FinishIsUnique(code, inner, s, u, v);
    }
    t := u;
    k :| Steps(code, inner, s, k) == Some(t);
  }

  /** One call, given that the callee runs to its end on the flat machine. */
  lemma FlatCall(code: seq<Instr>, entry: seq<int>, w: World, s: Cpu, callers: seq<Cpu>, xs: seq<word>, t: Cpu)
    requires !s.halted && 0 <= s.pc < |code| && code[s.pc].CallFn? && code[s.pc].f < |entry|
    requires ArgList(s, code[s.pc].argc) == Some(xs) && Aligned(StackPointer(s))
    requires 0 <= t.pc < |code| && code[t.pc].Leave?
    requires FlatReaches(Resolved(code, entry), w, Flat(Entered(entry[code[s.pc].f], xs, s.mem, StackPointer(s)), callers + [s]),
                         Flat(t.(halted := false), callers + [s]))
    ensures FlatReaches(Resolved(code, entry), w, Flat(s, callers), Flat(AfterCall(s, Some(Done(t.acc, t.mem))).value, callers))
  {
    hide FlatReaches, ArgList, StackPointer, Aligned;
    var c := Resolved(code, entry);
    var x, y, z := Flat(s, callers), Flat(Entered(entry[code[s.pc].f], xs, s.mem, StackPointer(s)), callers + [s]),
      Flat(t.(halted := false), callers + [s]);
    assert c[s.pc] == Aimed(code[s.pc], s.pc, entry);
    assert FlatStep(c, w, x) == Some(y);
    FlatOne(c, w, x, y);
    assert (callers + [s])[..|callers|] == callers;
    var e := Flat(AfterCall(s, Some(Done(t.acc, t.mem))).value, callers);
    assert FlatStep(c, w, z) == Some(e);
    FlatOne(c, w, z, e);
    FlatThen(c, w, x, y, z);
    FlatThen(c, w, x, z, e);
  }

  /** Whatever nested calls do, the flat machine does, up to the instruction that ends the function. */
  lemma {:induction false} FlatRuns(code: seq<Instr>, entry: seq<int>, w: World, n: nat, s: Cpu, k: nat, t: Cpu, callers: seq<Cpu>)
    requires !s.halted && Steps(code, MachineWorld(code, entry, w, n), s, k) == Some(t)
    ensures FlatReaches(Resolved(code, entry), w, Flat(s, callers), Flat(t.(halted := false), callers))
    ensures t.halted ==> 0 <= t.pc < |code| && code[t.pc].Leave?
    decreases n, k
  {
    hide FlatReaches, Resolved, MachineCall, Step, ArgList, StackPointer, Aligned;
    var c := Resolved(code, entry);
    if k == 0 {
      FlatSelf(c, w, Flat(s, callers));
    } else {
      var i, wn := code[s.pc], MachineWorld(code, entry, w, n);
      var u := Step(i, wn, s).value;
      if i.CallFn? {
        var xs, fin, kk := FlatCallee(code, entry, w, n, s);
        FlatRuns(code, entry, w, n - 1, Entered(entry[i.f], xs, s.mem, StackPointer(s)), kk, fin, callers + [s]);
        FlatCall(code, entry, w, s, callers, xs, fin);
        FlatRuns(code, entry, w, n, u, k - 1, t, callers);
        FlatThen(c, w, Flat(s, callers), Flat(u, callers), Flat(t.(halted := false), callers));
      } else if i.Leave? {
        LeaveStep(wn, s);
        assert t == u;
        FlatSelf(c, w, Flat(s, callers));
      } else {
        PlainStep(i, code, entry, w, n, s);
        FlatPlain(code, entry, w, s, callers, u);
        FlatRuns(code, entry, w, n, u, k - 1, t, callers);
        FlatThen(c, w, Flat(s, callers), Flat(u, callers), Flat(t.(halted := false), callers));
      }
    }
  }

  lemma LeaveStep(w: World, s: Cpu)
    ensures Step(Leave, w, s) == Some(s.(halted := true))
  {
  }

  lemma FlatPlain(code: seq<Instr>, entry: seq<int>, w: World, s: Cpu, callers: seq<Cpu>, u: Cpu)
    requires !s.halted && 0 <= s.pc < |code| && !code[s.pc].CallFn? && !code[s.pc].Leave? && Step(code[s.pc], w, s) == Some(u)
    ensures FlatReaches(Resolved(code, entry), w, Flat(s, callers), Flat(u, callers))
  {
    hide FlatReaches, Step, ArgList, StackPointer, Aligned;
    var c := Resolved(code, entry);
    assert c[s.pc] == Plain(code[s.pc]);
    FlatOne(c, w, Flat(s, callers), Flat(u, callers));
  }

  /** The callee of a call instruction that returns. */
  lemma FlatCallee(code: seq<Instr>, entry: seq<int>, w: World, n: nat, s: Cpu) returns (xs: seq<word>, t: Cpu, k: nat)
    requires 0 <= s.pc < |code| && code[s.pc].CallFn? && Step(code[s.pc], MachineWorld(code, entry, w, n), s).Some?
    ensures n > 0 && code[s.pc].f < |entry| && t.halted && ArgList(s, code[s.pc].argc) == Some(xs) && Aligned(StackPointer(s))
    ensures Step(code[s.pc], MachineWorld(code, entry, w, n), s) == AfterCall(s, Some(Done(t.acc, t.mem)))
    ensures Steps(code, MachineWorld(code, entry, w, n - 1), Entered(entry[code[s.pc].f], xs, s.mem, StackPointer(s)), k) == Some(t)
  {
    hide MachineCall, ArgList, StackPointer, Aligned, Steps;
    xs := ArgList(s, code[s.pc].argc).value;
    t, k := CalleeFinishes(code, entry, w, n, code[s.pc].f, xs, s.mem, StackPointer(s));
  }

  // ---------------------------------------------------------------- whole programs

  /** The entry stub: align the stack, call main, and exit with its result. */
  function Stub(main: nat): (r: seq<Instr>)
    ensures |r| == 6
  {
    [Pad, CallFn(main, 0), AccToArg, Imm(0), Syscall(1), Trap]
  }

  function WholeCode(prog: seq<Func>, main: nat): seq<Instr> { Stub(main) + ProgramCode(prog, |Stub(main)|) }

  /** A program starts with its stack 8 below a multiple of 16. */
  function Started(m: Memory, sp: int): Cpu { Cpu(0, 0, 0, 0, map[], [], Frame(sp, 0), m, false) }

  /** Before the system call that ends the program: number 0 with main's result. */
  ghost predicate Exiting(code: seq<LinkedInstr>, x: Flat, value: word, m: Memory) {
    && x.callers == [] && 0 <= x.cpu.pc < |code| && code[x.cpu.pc] == Plain(Syscall(1))
    && x.cpu.acc == 0 && ArgList(x.cpu, 1) == Some([value]) && x.cpu.mem == m && !x.cpu.halted
  }

  /** From the stub to the call of main and back. */
  lemma MainReturns(prog: seq<Func>, main: nat, w: World, n: nat, m: Memory, sp: int) returns (s: Cpu)
    requires (forall f :: 0 <= f < |prog| ==> TypedFunc(prog[f])) && main < |prog|
    requires sp % 16 == 8 && SourceCall(prog, w, n, main, [], m, sp - 8).Some?
    ensures var r := SourceCall(prog, w, n, main, [], m, sp - 8).value;
      && s.pc == 2 && s.acc == r.value && s.mem == r.mem && !s.halted
      && FlatReaches(Resolved(WholeCode(prog, main), Entries(prog, 6)), w, Flat(Started(m, sp), []), Flat(s, []))
  {
    hide SourceCall, MachineCall, FlatReaches, TypedFunc, ProgramCode, Entries, Steps, Linked, Resolved, Step;
    var code, entry := WholeCode(prog, main), Entries(prog, 6);
    var c := Resolved(code, entry);
    ProgramLinked(prog, Stub(main));
    var a := PadFirst(prog, main, w, m, sp);
    AlignedBelow(sp);
    CallsAgree(prog, code, entry, w, n, main, [], m, sp - 8);
    var t, k := CalleeFinishes(code, entry, w, n, main, [], m, sp - 8);
    FlatRuns(code, entry, w, n - 1, Entered(entry[main], [], m, sp - 8), k, t, [a]);
    NoArgs(a);
    assert [] + [a] == [a];
    FlatCall(code, entry, w, a, [], [], t);
    s := AfterCall(a, Some(Done(t.acc, t.mem))).value;
    FlatThen(c, w, Flat(Started(m, sp), []), Flat(a, []), Flat(s, []));
  }

  lemma NoArgs(s: Cpu)
    ensures ArgList(s, 0) == Some([])
  {
    assert ArgList(s, 0).value == [];
  }

  lemma OneArg(s: Cpu)
    requires 0 in s.args
    ensures ArgList(s, 1) == Some([s.args[0]])
  {
    assert ArgList(s, 1).value == [s.args[0]];
  }

  lemma AlignedBelow(sp: int)
    requires sp % 16 == 8
    ensures Aligned(sp - 8)
  {
  }

  lemma PadFirst(prog: seq<Func>, main: nat, w: World, m: Memory, sp: int) returns (a: Cpu)
    ensures a == Started(m, sp).(pc := 1, stack := [0]) && StackPointer(a) == sp - 8
    ensures FlatReaches(Resolved(WholeCode(prog, main), Entries(prog, 6)), w, Flat(Started(m, sp), []), Flat(a, []))
  {
    hide FlatReaches, ProgramCode, Entries, Resolved;
    var code := WholeCode(prog, main);
    a := Started(m, sp).(pc := 1, stack := [0]);
    assert code[0] == Pad && [] + [0] == [0];
    assert Step(Pad, w, Started(m, sp)) == Some(a);
    FlatPlain(code, Entries(prog, 6), w, Started(m, sp), [], a);
  }

  /**
   Whole programs: if main returns in the source, the linked code run from its entry stub comes to the exit call
   with main's result and main's memory, however deeply the functions call each other.
   */
  lemma ProgramExits(prog: seq<Func>, main: nat, w: World, n: nat, m: Memory, sp: int) returns (x: Flat)
    requires (forall f :: 0 <= f < |prog| ==> TypedFunc(prog[f])) && main < |prog|
    requires sp % 16 == 8 && SourceCall(prog, w, n, main, [], m, sp - 8).Some?
    ensures var r, code := SourceCall(prog, w, n, main, [], m, sp - 8).value, Resolved(WholeCode(prog, main), Entries(prog, |Stub(main)|));
      FlatReaches(code, w, Flat(Started(m, sp), []), x) && Exiting(code, x, r.value, r.mem)
  {
    hide SourceCall, FlatReaches, TypedFunc, ProgramCode, Entries, Exiting, Resolved, WholeCode, Step;
    var s := MainReturns(prog, main, w, n, m, sp);
    x := ExitReached(prog, main, w, s);
    FlatThen(Resolved(WholeCode(prog, main), Entries(prog, 6)), w, Flat(Started(m, sp), []), Flat(s, []), x);
  }

  /** Behind the call of main. */
  lemma ExitReached(prog: seq<Func>, main: nat, w: World, s: Cpu) returns (x: Flat)
    requires s.pc == 2 && !s.halted
    ensures var code := Resolved(WholeCode(prog, main), Entries(prog, 6));
      FlatReaches(code, w, Flat(s, []), x) && Exiting(code, x, s.acc, s.mem)
  {
    hide FlatReaches, ProgramCode, Entries, ArgList, Wrap, Alu;
    var code, entry := WholeCode(prog, main), Entries(prog, 6);
    var c := Resolved(code, entry);
    assert code[2] == AccToArg && code[3] == Imm(0) && code[4] == Syscall(1);
    var a := s.(pc := 3, args := s.args[0 := s.acc]);
    FlatPlain(code, entry, w, s, [], a);
    var b := a.(pc := 4, acc := 0);
    FlatPlain(code, entry, w, a, [], b);
    x := Flat(b, []);
    FlatThen(c, w, Flat(s, []), Flat(a, []), x);
    OneArg(b);
    assert c[4] == Aimed(code[4], 4, entry);
  }
}
