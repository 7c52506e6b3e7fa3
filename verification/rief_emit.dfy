/**
 The one-pass code generator: it appends to a growing code buffer, counts
 pending temporaries in spdepth, leaves zero displacements behind and patches
 them once the target is known. It is proved to produce exactly the code of
 RiefGen, and never to leave the expression stack unbalanced.
 */
module RiefEmit {
  import opened Basics
  import opened RiefLang
  import opened RiefMachine
  import opened RiefGen
  import opened RiefProgram
  import opened RiefLink

  // ---------------------------------------------------------------- patching

  datatype Kind = KBreak | KContinue | KReturn

  function Aim(g: Targets, kind: Kind, target: Option<int>): Targets {
    match kind
    case KBreak => g.(brk := target)
    case KContinue => g.(cont := target)
    case KReturn => g.(ret := target)
  }

  /** Positions of the unresolved jumps of one kind, in emission order. */
  function JumpsIn(kind: Kind, s: Stmt, at: int): seq<int>
    decreases s, 1
  {
    match s
    case Block(ss) => JumpsInAll(kind, ss, at)
    case Eval(_) => []
    case Return(e) => if kind.KReturn? then [at + StmtSize(s) - 1] else []
    case If(c, t, e) =>
      var thenAt := at + |ExprCode(c, 0)| + 1;
      JumpsIn(kind, t, thenAt)
      + (if e.None? then [] else JumpsIn(kind, e.value, thenAt + StmtSize(t) + 1))
    case While(c, b) => JumpsInLoop(kind, Some(c), b, at)
    case For(i, t, p, b) =>
      if i.None? then JumpsInLoop(kind, t, b, at)
      else JumpsIn(kind, i.value, at) + JumpsInLoop(kind, t, b, at + StmtSize(i.value))
    case Break => if kind.KBreak? then [at] else []
    case Continue => if kind.KContinue? then [at] else []
  }

  function JumpsInAll(kind: Kind, ss: seq<Stmt>, at: int): seq<int>
    decreases ss, 0
  {
    if ss == [] then [] else JumpsIn(kind, ss[0], at) + JumpsInAll(kind, ss[1..], at + StmtSize(ss[0]))
  }

  /** A loop resolves its own breaks and continues; returns escape it. */
  function JumpsInLoop(kind: Kind, t: Option<Expr>, b: Stmt, at: int): seq<int>
    decreases b, 2
  {
    if kind.KReturn? then JumpsIn(kind, b, at + TestSize(t)) else []
  }

  /** The code that sits at base with the jumps at the listed positions aimed at target. */
  function Patched(c: seq<Instr>, base: int, ps: seq<int>, target: int): (r: seq<Instr>)
    ensures |r| == |c|
  {
    seq(|c|, k requires 0 <= k < |c| => if base + k in ps then Jump(target - (base + k + 1)) else c[k])
  }

  ghost predicate Within(ps: seq<int>, lo: int, hi: int) {
    forall i :: 0 <= i < |ps| ==> lo <= ps[i] < hi
  }

  lemma PatchedNone(c: seq<Instr>, base: int, target: int)
    ensures Patched(c, base, [], target) == c
  {
  }

  lemma PatchedConcat(a: seq<Instr>, b: seq<Instr>, base: int, ps: seq<int>, qs: seq<int>, target: int)
    requires Within(ps, base, base + |a|) && Within(qs, base + |a|, base + |a| + |b|)
    ensures Patched(a + b, base, ps + qs, target) == Patched(a, base, ps, target) + Patched(b, base + |a|, qs, target)
    ensures Within(ps + qs, base, base + |a| + |b|)
  {
    var l, r := Patched(a + b, base, ps + qs, target), Patched(a, base, ps, target) + Patched(b, base + |a|, qs, target);
    forall k | 0 <= k < |a| + |b|
      ensures l[k] == r[k]
    {
      if k < |a| {
        assert base + k !in qs;
        assert base + k in ps + qs <==> base + k in ps;
      } else {
        assert base + k !in ps;
        assert base + k in ps + qs <==> base + k in qs;
      }
    }
  }

  /** Code with no jumps of its own in front of, or behind, code that has some. */
  lemma PatchedAfter(a: seq<Instr>, b: seq<Instr>, base: int, qs: seq<int>, target: int)
    requires Within(qs, base + |a|, base + |a| + |b|)
    ensures Patched(a + b, base, qs, target) == a + Patched(b, base + |a|, qs, target)
    ensures Within(qs, base, base + |a| + |b|)
  {
    PatchedConcat(a, b, base, [], qs, target);
    PatchedNone(a, base, target);
    assert [] + qs == qs;
  }

  lemma PatchedBefore(a: seq<Instr>, b: seq<Instr>, base: int, ps: seq<int>, target: int)
    requires Within(ps, base, base + |a|)
    ensures Patched(a + b, base, ps, target) == Patched(a, base, ps, target) + b
    ensures Within(ps, base, base + |a| + |b|)
  {
    PatchedConcat(a, b, base, ps, [], target);
    PatchedNone(b, base + |a|, target);
    assert ps + [] == ps;
  }

  /** Patching the placeholders of one kind afterwards equals knowing the target beforehand. */
  lemma {:induction false} PatchStmt(kind: Kind, s: Stmt, at: int, g: Targets, target: int)
    ensures StmtCode(s, at, Aim(g, kind, Some(target)))
            == Patched(StmtCode(s, at, Aim(g, kind, None)), at, JumpsIn(kind, s, at), target)
    ensures Within(JumpsIn(kind, s, at), at, at + StmtSize(s))
    decreases s, 1
  {
    hide Patched, LoopCode, AllCode, ExprCode, JumpsInAll, JumpsInLoop, Within;
    match s
    case Block(ss) => PatchAll(kind, ss, at, g, target);
    case Eval(e) =>
      PatchedNone(OptionCode(e), at, target);
      WithinNone(at, at + StmtSize(s));
    case Return(e) => PatchReturn(kind, e, at, g, target);
    case If(_, _, _) => PatchIf(kind, s, at, g, target);
    case While(c, b) => PatchLoop(kind, Some(c), None, b, at, g, target);
    case For(i, t, p, b) =>
      if i.None? {
        PatchLoop(kind, t, p, b, at, g, target);
      } else {
        PatchFor(kind, s, at, g, target);
      }
    case Break =>
      PatchJump(kind, KBreak, at, g, target);
      WithinNone(at, at + 1);
      WithinOne(at);
    case Continue =>
      PatchJump(kind, KContinue, at, g, target);
      WithinNone(at, at + 1);
      WithinOne(at);
  }

  lemma WithinNone(lo: int, hi: int)
    ensures Within([], lo, hi)
  {
  }

  lemma WithinOne(at: int)
    ensures Within([at], at, at + 1)
  {
  }

  lemma {:induction false} PatchFor(kind: Kind, s: Stmt, at: int, g: Targets, target: int)
    requires s.For? && s.init.Some?
    ensures StmtCode(s, at, Aim(g, kind, Some(target)))
            == Patched(StmtCode(s, at, Aim(g, kind, None)), at, JumpsIn(kind, s, at), target)
    ensures Within(JumpsIn(kind, s, at), at, at + StmtSize(s))
    decreases s, 0
  {
    hide Patched, LoopCode, JumpsInLoop, Aim;
    var i := s.init.value;
    var mid := at + StmtSize(i);
    var hole := Aim(g, kind, None);
    PatchStmt(kind, i, at, g, target);
    PatchLoop(kind, s.test, s.step, s.loop, mid, g, target);
    StmtCodeSize(i, at, hole);
    LoopCodeSize(s.test, s.step, s.loop, mid, hole);
    PatchedConcat(StmtCode(i, at, hole), LoopCode(s.test, s.step, s.loop, mid, hole), at,
                  JumpsIn(kind, i, at), JumpsInLoop(kind, s.test, s.loop, mid), target);
  }

  lemma PatchJump(kind: Kind, own: Kind, at: int, g: Targets, target: int)
    ensures var hole, full := Aim(g, kind, None), Aim(g, kind, Some(target));
            var ps := if kind == own then [at] else [];
            [JumpTo(at, Goal(full, own))] == Patched([JumpTo(at, Goal(hole, own))], at, ps, target)
  {
  }

  function Goal(g: Targets, kind: Kind): Option<int> {
    match kind case KBreak => g.brk case KContinue => g.cont case KReturn => g.ret
  }

  lemma PatchReturn(kind: Kind, e: Option<Expr>, at: int, g: Targets, target: int)
    ensures var s := Return(e);
            && StmtCode(s, at, Aim(g, kind, Some(target)))
               == Patched(StmtCode(s, at, Aim(g, kind, None)), at, JumpsIn(kind, s, at), target)
            && Within(JumpsIn(kind, s, at), at, at + StmtSize(s))
  {
    hide Patched, ExprCode;
    var c := if e.None? then [Imm(0)] else OptionCode(e);
    var hole := Aim(g, kind, None);
    PatchJump(kind, KReturn, at + |c|, g, target);
    PatchedAfter(c, [JumpTo(at + |c|, hole.ret)], at, JumpsIn(kind, Return(e), at), target);
  }

  lemma {:induction false} PatchAll(kind: Kind, ss: seq<Stmt>, at: int, g: Targets, target: int)
    ensures AllCode(ss, at, Aim(g, kind, Some(target)))
            == Patched(AllCode(ss, at, Aim(g, kind, None)), at, JumpsInAll(kind, ss, at), target)
    ensures Within(JumpsInAll(kind, ss, at), at, at + AllSize(ss))
    decreases ss, 0
  {
    hide Patched, StmtCode, StmtSize, JumpsIn, Aim, Within;
    var hole := Aim(g, kind, None);
    if ss == [] {
      PatchedNone([], at, target);
      WithinNone(at, at);
    } else {
      var mid := at + StmtSize(ss[0]);
      PatchStmt(kind, ss[0], at, g, target);
      PatchAll(kind, ss[1..], mid, g, target);
      StmtCodeSize(ss[0], at, hole);
      AllCodeSize(ss[1..], mid, hole);
      PatchedConcat(StmtCode(ss[0], at, hole), AllCode(ss[1..], mid, hole), at,
                    JumpsIn(kind, ss[0], at), JumpsInAll(kind, ss[1..], mid), target);
    }
  }

  /** Code, then code with jumps, then code again. */
  lemma PatchedMiddle(a: seq<Instr>, b: seq<Instr>, c: seq<Instr>, base: int, ps: seq<int>, target: int)
    requires Within(ps, base + |a|, base + |a| + |b|)
    ensures Patched(a + b + c, base, ps, target) == a + Patched(b, base + |a|, ps, target) + c
    ensures Within(ps, base, base + |a| + |b| + |c|)
  {
    hide Patched;
    PatchedAfter(a, b, base, ps, target);
    PatchedBefore(a + b, c, base, ps, target);
  }

  lemma {:induction false} PatchIf(kind: Kind, s: Stmt, at: int, g: Targets, target: int)
    requires s.If?
    ensures StmtCode(s, at, Aim(g, kind, Some(target)))
            == Patched(StmtCode(s, at, Aim(g, kind, None)), at, JumpsIn(kind, s, at), target)
    ensures Within(JumpsIn(kind, s, at), at, at + StmtSize(s))
    decreases s, 0
  {
    hide Patched, Aim, ExprCode, Within;
    var hole, full := Aim(g, kind, None), Aim(g, kind, Some(target));
    var head := ExprCode(s.cond, 0) + [JumpZero(StmtSize(s.then_) + 1)];
    var thenAt := at + |head|;
    var elseAt := thenAt + StmtSize(s.then_) + 1;
    var yes, done := StmtCode(s.then_, thenAt, hole), StmtCode(s.then_, thenAt, full);
    var skip := [Jump(if s.else_.None? then 0 else StmtSize(s.else_.value))];
    var ps := JumpsIn(kind, s.then_, thenAt);
    StmtCodeSize(s.then_, thenAt, hole);
    PatchStmt(kind, s.then_, thenAt, g, target);
    PatchedMiddle(head, yes, skip, at, ps, target);
    if s.else_.Some? {
      var no := StmtCode(s.else_.value, elseAt, hole);
      StmtCodeSize(s.else_.value, elseAt, hole);
      PatchStmt(kind, s.else_.value, elseAt, g, target);
      PatchedConcat(head + yes + skip, no, at, ps, JumpsIn(kind, s.else_.value, elseAt), target);
    } else {
      assert ps + [] == ps;
      assert head + yes + skip + [] == head + yes + skip;
      assert head + done + skip + [] == head + done + skip;
    }
  }

  lemma Join(base: seq<Instr>, a: seq<Instr>, b: seq<Instr>)
    ensures (base + a) + b == base + (a + b)
  {
  }

  /** A loop's code as head, body and tail; only the body depends on where returns go. */
  lemma LoopShape(t: Option<Expr>, p: Option<Expr>, b: Stmt, at: int, g: Targets)
    ensures var end, bodyAt := at + LoopSize(t, p, b), at + TestSize(t);
            var h := Targets(Some(end), Some(bodyAt + StmtSize(b)), g.ret);
            && |TestCode(t, end - bodyAt)| == TestSize(t)
            && LoopCode(t, p, b, at, g) == TestCode(t, end - bodyAt) + StmtCode(b, bodyAt, h) + (OptionCode(p) + [Jump(at - end)])
  {
    hide StmtCode, StmtSize, OptionCode;
    var end, bodyAt := at + LoopSize(t, p, b), at + TestSize(t);
    var h := Targets(Some(end), Some(bodyAt + StmtSize(b)), g.ret);
    Join(TestCode(t, end - bodyAt) + StmtCode(b, bodyAt, h), OptionCode(p), [Jump(at - end)]);
  }

  lemma {:induction false} PatchLoop(kind: Kind, t: Option<Expr>, p: Option<Expr>, b: Stmt, at: int, g: Targets, target: int)
    ensures LoopCode(t, p, b, at, Aim(g, kind, Some(target)))
            == Patched(LoopCode(t, p, b, at, Aim(g, kind, None)), at, JumpsInLoop(kind, t, b, at), target)
    ensures Within(JumpsInLoop(kind, t, b, at), at, at + LoopSize(t, p, b))
    decreases b, 2
  {
    hide Patched, StmtCode, StmtSize, OptionCode, TestCode, TestSize, LoopCode, Within, JumpsIn;
    var hole, full := Aim(g, kind, None), Aim(g, kind, Some(target));
    LoopShape(t, p, b, at, hole);
    LoopShape(t, p, b, at, full);
    if kind.KReturn? {
      var end, bodyAt := at + LoopSize(t, p, b), at + TestSize(t);
      var inner := Targets(Some(end), Some(bodyAt + StmtSize(b)), None);
      StmtCodeSize(b, bodyAt, inner);
      PatchStmt(kind, b, bodyAt, inner, target);
      PatchedMiddle(TestCode(t, end - bodyAt), StmtCode(b, bodyAt, inner), OptionCode(p) + [Jump(at - end)],
                    at, JumpsIn(kind, b, bodyAt), target);
    } else {
      PatchedNone(LoopCode(t, p, b, at, hole), at, target);
      WithinNone(at, at + LoopSize(t, p, b));
    }
  }

  // ---------------------------------------------------------------- when the emitter gives up

  const MAX_JUMPS: nat := 1024
  const MAX_EXITS: nat := 8192

  /** How many jumps of a kind a statement leaves open. */
  function Tally(kind: Kind, s: Stmt): nat
    decreases s, 1
  {
    match s
    case Block(ss) => TallyAll(kind, ss)
    case Eval(_) => 0
    case Return(_) => if kind.KReturn? then 1 else 0
    case If(_, t, e) => Tally(kind, t) + if e.None? then 0 else Tally(kind, e.value)
    case While(_, b) => if kind.KReturn? then Tally(kind, b) else 0
    case For(i, _, _, b) => (if i.None? then 0 else Tally(kind, i.value)) + if kind.KReturn? then Tally(kind, b) else 0
    case Break => if kind.KBreak? then 1 else 0
    case Continue => if kind.KContinue? then 1 else 0
  }

  function TallyAll(kind: Kind, ss: seq<Stmt>): nat
    decreases ss, 0
  {
    if ss == [] then 0 else Tally(kind, ss[0]) + TallyAll(kind, ss[1..])
  }

  /** No loop in s has more breaks or continues than it can record. */
  predicate Roomy(s: Stmt)
    decreases s, 1
  {
    match s
    case Block(ss) => RoomyAll(ss)
    case If(_, t, e) => Roomy(t) && (e.Some? ==> Roomy(e.value))
    case While(_, b) => Roomy(b) && Tally(KBreak, b) <= MAX_JUMPS && Tally(KContinue, b) <= MAX_JUMPS
    case For(i, _, _, b) =>
      (i.Some? ==> Roomy(i.value)) && Roomy(b) && Tally(KBreak, b) <= MAX_JUMPS && Tally(KContinue, b) <= MAX_JUMPS
    case _ => true
  }

  predicate RoomyAll(ss: seq<Stmt>)
    decreases ss, 0
  {
    ss == [] || (Roomy(ss[0]) && RoomyAll(ss[1..]))
  }

  datatype Counts = Counts(exits: nat, breaks: nat, continues: nat)

  function Plus(n: Counts, s: Stmt): Counts {
    Counts(n.exits + Tally(KReturn, s), n.breaks + Tally(KBreak, s), n.continues + Tally(KContinue, s))
  }

  predicate Small(n: Counts) { n.exits <= MAX_EXITS && n.breaks <= MAX_JUMPS && n.continues <= MAX_JUMPS }

  /** With n jumps recorded already, s is well nested and its jumps can be recorded. */
  ghost predicate Fits(s: Stmt, n: Counts, inLoop: bool) { TypedStmt(s, inLoop) && Roomy(s) && Small(Plus(n, s)) }

  ghost predicate FitsAll(ss: seq<Stmt>, n: Counts, inLoop: bool)
    decreases |ss|
  {
    ss == [] || (Fits(ss[0], n, inLoop) && FitsAll(ss[1..], Plus(n, ss[0]), inLoop))
  }

  lemma {:induction false} TallyIs(kind: Kind, s: Stmt, at: int)
    ensures |JumpsIn(kind, s, at)| == Tally(kind, s)
    decreases s, 1
  {
    hide ExprCode, StmtSize;
    match s
    case Block(ss) => TallyAllIs(kind, ss, at);
    case If(c, t, e) =>
      var thenAt := at + |ExprCode(c, 0)| + 1;
      TallyIs(kind, t, thenAt);
      if e.Some? {
        TallyIs(kind, e.value, thenAt + StmtSize(t) + 1);
      }
    case While(c, b) => TallyIs(kind, b, at + TestSize(Some(c)));
    case For(i, t, p, b) =>
      if i.Some? {
        TallyIs(kind, i.value, at);
        TallyIs(kind, b, at + StmtSize(i.value) + TestSize(t));
      } else {
        TallyIs(kind, b, at + TestSize(t));
      }
    case _ =>
  }

  lemma {:induction false} TallyAllIs(kind: Kind, ss: seq<Stmt>, at: int)
    ensures |JumpsInAll(kind, ss, at)| == TallyAll(kind, ss)
    decreases ss, 0
  {
    hide StmtSize, JumpsIn, Tally;
    if ss != [] {
      TallyIs(kind, ss[0], at);
      TallyAllIs(kind, ss[1..], at + StmtSize(ss[0]));
    }
  }

  lemma {:induction false} FitsBlock(ss: seq<Stmt>, n: Counts, inLoop: bool)
    requires Small(n)
    ensures Fits(Block(ss), n, inLoop) <==> FitsAll(ss, n, inLoop)
    decreases |ss|
  {
    BlockParts(ss, n, inLoop);
    hide Fits, Small, Plus, TypedStmt, Roomy, Tally;
    if ss != [] {
      if Fits(ss[0], n, inLoop) {
        FitsSmall(ss[0], n, inLoop);
        FitsBlock(ss[1..], Plus(n, ss[0]), inLoop);
      }
    }
  }

  lemma BlockParts(ss: seq<Stmt>, n: Counts, inLoop: bool)
    ensures ss == [] ==> (Fits(Block(ss), n, inLoop) <==> Small(n))
    ensures ss != [] ==> (Fits(Block(ss), n, inLoop) <==> Fits(ss[0], n, inLoop) && Fits(Block(ss[1..]), Plus(n, ss[0]), inLoop))
  {
    hide Tally, Roomy, TypedStmt;
    BlockTally(KReturn, ss);
    BlockTally(KBreak, ss);
    BlockTally(KContinue, ss);
    BlockRoomy(ss);
    BlockTyped(ss, inLoop);
  }

  lemma BlockTally(kind: Kind, ss: seq<Stmt>)
    ensures Tally(kind, Block(ss)) == if ss == [] then 0 else Tally(kind, ss[0]) + Tally(kind, Block(ss[1..]))
  {
    if ss != [] {
      assert Tally(kind, Block(ss[1..])) == TallyAll(kind, ss[1..]);
    }
    assert Tally(kind, Block(ss)) == TallyAll(kind, ss);
  }

  lemma BlockRoomy(ss: seq<Stmt>)
    ensures Roomy(Block(ss)) <==> ss == [] || (Roomy(ss[0]) && Roomy(Block(ss[1..])))
  {
    if ss != [] {
      assert Roomy(Block(ss[1..])) == RoomyAll(ss[1..]);
    }
    assert Roomy(Block(ss)) == RoomyAll(ss);
  }

  lemma BlockTyped(ss: seq<Stmt>, inLoop: bool)
    ensures TypedStmt(Block(ss), inLoop) <==> ss == [] || (TypedStmt(ss[0], inLoop) && TypedStmt(Block(ss[1..]), inLoop))
  {
    if ss != [] {
      TypedRest(ss, inLoop);
    }
  }

  lemma TypedRest(ss: seq<Stmt>, inLoop: bool)
    requires ss != []
    ensures (forall i :: 0 <= i < |ss| ==> TypedStmt(ss[i], inLoop)) <==>
            TypedStmt(ss[0], inLoop) && (forall i :: 0 <= i < |ss[1..]| ==> TypedStmt(ss[1..][i], inLoop))
  {
    hide TypedStmt;
    if TypedStmt(ss[0], inLoop) && (forall i :: 0 <= i < |ss[1..]| ==> TypedStmt(ss[1..][i], inLoop)) {
      forall i | 0 <= i < |ss|
        ensures TypedStmt(ss[i], inLoop)
      {
        if i > 0 {
          assert ss[1..][i - 1] == ss[i];
        }
      }
    }
  }

  lemma FitsSmall(s: Stmt, n: Counts, inLoop: bool)
    requires Fits(s, n, inLoop)
    ensures Small(Plus(n, s)) && Small(n)
  {
    hide Tally, Roomy, TypedStmt;
  }

  lemma FitsIf(s: Stmt, n: Counts, inLoop: bool)
    requires s.If? && Typed(s.cond)
    ensures s.else_.None? ==> (Fits(s, n, inLoop) <==> Fits(s.then_, n, inLoop))
    ensures s.else_.Some? ==> (Fits(s, n, inLoop) <==> Fits(s.then_, n, inLoop) && Fits(s.else_.value, Plus(n, s.then_), inLoop))
  {
    hide Typed;
  }

  /** A loop resolves its own breaks and continues; its returns stay. */
  lemma FitsLoop(s: Stmt, n: Counts, inLoop: bool)
    requires Small(n) && (s.While? || s.For?) && TypedStmt(s, true)
    ensures s.While? || s.init.None? ==> (Fits(s, n, inLoop) <==> Fits(s.loop, Counts(n.exits, 0, 0), true))
    ensures s.For? && s.init.Some? ==>
      (Fits(s, n, inLoop) <==> Fits(s.init.value, n, inLoop) && Fits(s.loop, Counts(Plus(n, s.init.value).exits, 0, 0), true))
  {
    hide Typed;
  }

  lemma FitsJump(s: Stmt, n: Counts, inLoop: bool)
    requires Small(n) && TypedStmt(s, true)
    ensures s.Eval? ==> Fits(s, n, inLoop)
    ensures s.Return? ==> (Fits(s, n, inLoop) <==> n.exits < MAX_EXITS)
    ensures s.Break? ==> (Fits(s, n, inLoop) <==> inLoop && n.breaks < MAX_JUMPS)
    ensures s.Continue? ==> (Fits(s, n, inLoop) <==> inLoop && n.continues < MAX_JUMPS)
  {
    hide Typed;
  }

  /** Outside a loop there is nothing to record but returns. */
  lemma {:induction false} NoStrays(s: Stmt)
    requires TypedStmt(s, false)
    ensures Tally(KBreak, s) == 0 && Tally(KContinue, s) == 0
    decreases s, 1
  {
    hide Typed;
    match s
    case Block(ss) => NoStraysAll(ss);
    case If(_, t, e) =>
      NoStrays(t);
      if e.Some? {
        NoStrays(e.value);
      }
    case For(i, _, _, _) =>
      if i.Some? {
        NoStrays(i.value);
      }
    case _ =>
  }

  lemma {:induction false} NoStraysAll(ss: seq<Stmt>)
    requires forall i :: 0 <= i < |ss| ==> TypedStmt(ss[i], false)
    ensures TallyAll(KBreak, ss) == 0 && TallyAll(KContinue, ss) == 0
    decreases ss, 0
  {
    hide TypedStmt, Tally;
    if ss != [] {
      NoStrays(ss[0]);
      NoStraysAll(ss[1..]);
    }
  }

  // ---------------------------------------------------------------- one unfolding of the code of an expression

  lemma LeafCode(e: Expr, d: nat)
    ensures e.Const? ==> ExprCode(e, d) == [Imm(e.value)]
    ensures e.Str? ==> ExprCode(e, d) == [RefRodata(e.offset)]
    ensures e.AddrOf? ==> ExprCode(e, d) == AddrCode(e.a, d)
  {
    hide AddrCode;
  }

  lemma ReadCode(e: Expr, base: seq<Instr>, d: nat)
    requires LValue(e)
    ensures base + AddrCode(e, d) + LoadCode(e.ty) == base + ExprCode(e, d)
  {
    hide AddrCode, LoadCode;
    Join(base, AddrCode(e, d), LoadCode(e.ty));
  }

  lemma UnaryCode(e: Expr, base: seq<Instr>, d: nat)
    requires e.Cast? || e.Neg? || e.BitNot? || e.Not?
    ensures var last := if e.Cast? then CastCode(e.ty) else if e.Neg? then [Negate] else if e.BitNot? then [Complement] else [SetZero];
            base + ExprCode(e.a, d) + last == base + ExprCode(e, d)
  {
    hide CastCode;
    Join(base, ExprCode(e.a, d), if e.Cast? then CastCode(e.ty) else if e.Neg? then [Negate] else if e.BitNot? then [Complement] else [SetZero]);
  }

  lemma AssignCode(e: Expr, d: nat)
    requires e.Assign? && e.with.None?
    ensures ExprCode(e, d) == AddrCode(e.a, d) + [Push] + ExprCode(e.b, d + 1) + [Pop10] + StoreCode(TypeOf(e.a))
  {
    hide AddrCode, StoreCode, TypeOf;
  }

  lemma CompoundCode(e: Expr, d: nat)
    requires e.Assign? && e.with.Some?
    ensures var t := TypeOf(e.a);
            ExprCode(e, d) == AddrCode(e.a, d) + [Push] + LoadCode(t) + [Push] + ExprCode(e.b, d + 2)
              + [Pop10] + OpCode(e.with.value, t, TypeOf(e.b)) + [Pop10] + StoreCode(t)
  {
    hide AddrCode, LoadCode, OpCode, StoreCode, TypeOf;
  }

  // ---------------------------------------------------------------- the emitter

  const NOWHERE := Targets(None, None, None)

  /** Replace one instruction in the middle of the code. */
  lemma Replace(pre: seq<Instr>, x: Instr, post: seq<Instr>, y: Instr)
    ensures (pre + [x] + post)[|pre| := y] == pre + [y] + post
  {
  }

  lemma Joined(base: seq<Instr>, a: seq<Instr>, x: Instr, b: seq<Instr>, y: Instr, c: seq<Instr>)
    ensures base + a + [x] + b + [y] + c == base + (a + [x] + b + [y] + c)
  {
  }

  /** Jumps waiting for the end and the continuation point of one loop. */
  class Pending {
    var breaks: seq<int>
    var continues: seq<int>

    constructor ()
      ensures breaks == [] && continues == []
    {
      breaks, continues := [], [];
    }
  }

  class Emitter {
    var code: seq<Instr>
    var spdepth: nat
    var exits: seq<int>

    constructor ()
      ensures code == [] && spdepth == 0 && exits == []
    {
      code, spdepth, exits := [], 0, [];
    }

    method Put(part: seq<Instr>)
      modifies this`code
      ensures code == old(code) + part
    {
      code := code + part;
    }

    method PutPush()
      modifies this`code, this`spdepth
      ensures code == old(code) + [Push] && spdepth == old(spdepth) + 1
    {
      code, spdepth := code + [Push], spdepth + 1;
    }

    method PutPop()
      requires spdepth > 0
      modifies this`code, this`spdepth
      ensures code == old(code) + [Pop10] && spdepth == old(spdepth) - 1
    {
      code, spdepth := code + [Pop10], spdepth - 1;
    }

    /** Emit a jump with displacement 0 and return its position. */
    method PutJump(j: Instr) returns (at: nat)
      requires j == Jump(0) || j == JumpZero(0) || j == JumpNonzero(0)
      modifies this`code
      ensures at == |old(code)| && code == old(code) + [j]
    {
      at := |code|;
      code := code + [j];
    }

    /** Aim the jump at a position. */
    method Fix(at: nat, target: int)
      requires at < |code| && (code[at].Jump? || code[at].JumpZero? || code[at].JumpNonzero?)
      modifies this`code
      ensures code == old(code)[at := old(code)[at].(delta := target - (at + 1))]
    {
      code := code[at := code[at].(delta := target - (at + 1))];
    }

    method GenAddr(e: Expr)
      requires Typed(e) && LValue(e)
      modifies this`code, this`spdepth
      ensures code == old(code) + AddrCode(e, old(spdepth)) && spdepth == old(spdepth)
      decreases e, 0
    {
      match e
      case Var(p, _) => Put(PlaceCode(p));
      case Deref(a, _) => Gen(a);
      case Member(a, off, _) =>
        GenAddr(a);
        Put([AddImm(off)]);
    }

    /** gen: code for an expression, with spdepth temporaries pending before and after. */
    method Gen(e: Expr)
      requires Typed(e)
      modifies this`code, this`spdepth
      ensures code == old(code) + ExprCode(e, old(spdepth)) && spdepth == old(spdepth)
      decreases e, 2
    {
      hide CastCode, LoadCode, TypeOf, ExprCode, AddrCode;
      ghost var base, d := code, spdepth;
      match e
      case Const(v) => Put([Imm(v)]); LeafCode(e, d);
      case Str(off, _) => Put([RefRodata(off)]); LeafCode(e, d);
      case Var(_, t) => GenAddr(e); Put(LoadCode(t)); ReadCode(e, base, d);
      case Deref(_, t) => GenAddr(e); Put(LoadCode(t)); ReadCode(e, base, d);
      case Member(_, _, t) => GenAddr(e); Put(LoadCode(t)); ReadCode(e, base, d);
      case AddrOf(a) => GenAddr(a); LeafCode(e, d);
      case Cast(a, t) => Gen(a); Put(CastCode(t)); UnaryCode(e, base, d);
      case Neg(a) => Gen(a); Put([Negate]); UnaryCode(e, base, d);
      case BitNot(a) => Gen(a); Put([Complement]); UnaryCode(e, base, d);
      case Not(a) => Gen(a); Put([SetZero]); UnaryCode(e, base, d);
      case Call(_, _, _) => GenCall(e);
      case Binary(_, _, _, _) => GenBinary(e);
      case AndAlso(a, b) => GenShort(e, JumpZero(0));
      case OrElse(a, b) => GenShort(e, JumpNonzero(0));
      case Assign(_, _, _) =>
        if e.with.None? {
          GenAssign(e);
        } else {
          GenCompound(e);
        }
      case IncDec(_, _, _) => GenIncDec(e);
      case Cond(_, _, _) => GenCond(e);
    }

    method GenBinary(e: Expr)
      requires Typed(e) && e.Binary?
      modifies this`code, this`spdepth
      ensures code == old(code) + ExprCode(e, old(spdepth)) && spdepth == old(spdepth)
      decreases e, 1
    {
      hide OpCode, TypeOf;
      ghost var base, d := code, spdepth;
      Gen(e.a);
      ghost var done := ExprCode(e.a, d);
      PutPush();
      Join(base, done, [Push]);
      done := done + [Push];
      Gen(e.b);
      Join(base, done, ExprCode(e.b, d + 1));
      done := done + ExprCode(e.b, d + 1);
      PutPop();
      Join(base, done, [Pop10]);
      done := done + [Pop10];
      Put(OpCode(e.op, TypeOf(e.a), TypeOf(e.b)));
      Join(base, done, OpCode(e.op, TypeOf(e.a), TypeOf(e.b)));
    }

    method GenShort(e: Expr, j: Instr)
      requires Typed(e) && ((e.AndAlso? && j == JumpZero(0)) || (e.OrElse? && j == JumpNonzero(0)))
      modifies this`code, this`spdepth
      ensures code == old(code) + ExprCode(e, old(spdepth)) && spdepth == old(spdepth)
      decreases e, 1
    {
      ghost var base, d := code, spdepth;
      ghost var ca, cb := ExprCode(e.a, d), ExprCode(e.b, d);
      Gen(e.a);
      ghost var pre := code;
      var end := PutJump(j);
      Gen(e.b);
      assert code == pre + [j] + cb;
      Fix(end, |code|);
      Replace(pre, j, cb, j.(delta := |cb|));
      Put([SetNonzero]);
      assert code == base + ca + [j.(delta := |cb|)] + cb + [SetNonzero];
      assert code == base + (ca + [j.(delta := |cb|)] + cb + [SetNonzero]);
    }

    method GenCond(e: Expr)
      requires Typed(e) && e.Cond?
      modifies this`code, this`spdepth
      ensures code == old(code) + ExprCode(e, old(spdepth)) && spdepth == old(spdepth)
      decreases e, 1
    {
      ghost var base, d := code, spdepth;
      ghost var ca, cb, cc := ExprCode(e.a, d), ExprCode(e.b, d), ExprCode(e.c, d);
      Gen(e.a);
      ghost var pre := code;
      var no := PutJump(JumpZero(0));
      Gen(e.b);
      var end := PutJump(Jump(0));
      assert code == pre + [JumpZero(0)] + (cb + [Jump(0)]);
      Fix(no, |code|);
      Replace(pre, JumpZero(0), cb + [Jump(0)], JumpZero(|cb| + 1));
      ghost var mid := pre + [JumpZero(|cb| + 1)] + cb;
      assert code == mid + [Jump(0)];
      Gen(e.c);
      Fix(end, |code|);
      Replace(mid, Jump(0), cc, Jump(|cc|));
      Joined(base, ca, JumpZero(|cb| + 1), cb, Jump(|cc|), cc);
    }

    method GenAssign(e: Expr)
      requires Typed(e) && e.Assign? && e.with.None?
      modifies this`code, this`spdepth
      ensures code == old(code) + ExprCode(e, old(spdepth)) && spdepth == old(spdepth)
      decreases e, 1
    {
      hide StoreCode, TypeOf, ExprCode, AddrCode;
      ghost var base, d := code, spdepth;
      AssignCode(e, d);
      var t := TypeOf(e.a);
      GenAddr(e.a);
      ghost var done := AddrCode(e.a, d);
      PutPush();
      Join(base, done, [Push]);
      done := done + [Push];
      Gen(e.b);
      Join(base, done, ExprCode(e.b, d + 1));
      done := done + ExprCode(e.b, d + 1);
      PutPop();
      Join(base, done, [Pop10]);
      done := done + [Pop10];
      Put(StoreCode(t));
      Join(base, done, StoreCode(t));
    }

    method GenCompound(e: Expr)
      requires Typed(e) && e.Assign? && e.with.Some?
      modifies this`code, this`spdepth
      ensures code == old(code) + ExprCode(e, old(spdepth)) && spdepth == old(spdepth)
      decreases e, 1
    {
      hide LoadCode, StoreCode, OpCode, TypeOf, ExprCode, AddrCode;
      ghost var base, d := code, spdepth;
      CompoundCode(e, d);
      var t := TypeOf(e.a);
      GenAddr(e.a);
      ghost var done := AddrCode(e.a, d);
      PutPush();
      Join(base, done, [Push]);
      done := done + [Push];
      Put(LoadCode(t));
      Join(base, done, LoadCode(t));
      done := done + LoadCode(t);
      PutPush();
      Join(base, done, [Push]);
      done := done + [Push];
      Gen(e.b);
      Join(base, done, ExprCode(e.b, d + 2));
      done := done + ExprCode(e.b, d + 2);
      PutPop();
      Join(base, done, [Pop10]);
      done := done + [Pop10];
      var op := OpCode(e.with.value, t, TypeOf(e.b));
      Put(op);
      Join(base, done, op);
      done := done + op;
      PutPop();
      Join(base, done, [Pop10]);
      done := done + [Pop10];
      Put(StoreCode(t));
      Join(base, done, StoreCode(t));
    }

    method GenIncDec(e: Expr)
      requires Typed(e) && e.IncDec?
      modifies this`code, this`spdepth
      ensures code == old(code) + ExprCode(e, old(spdepth)) && spdepth == old(spdepth)
      decreases e, 1
    {
      hide LoadCode, StoreCode, TypeOf, Stride;
      ghost var base, d := code, spdepth;
      var t := TypeOf(e.a);
      GenAddr(e.a);
      ghost var done := AddrCode(e.a, d);
      PutPush();
      Join(base, done, [Push]);
      done := done + [Push];
      Put(LoadCode(t));
      Join(base, done, LoadCode(t));
      done := done + LoadCode(t);
      Put([AccToR11]);
      Join(base, done, [AccToR11]);
      done := done + [AccToR11];
      var add := [AddImm(if e.up then Stride(t) else 0 - Stride(t))];
      Put(add);
      Join(base, done, add);
      done := done + add;
      PutPop();
      Join(base, done, [Pop10]);
      done := done + [Pop10];
      Put(StoreCode(t));
      Join(base, done, StoreCode(t));
      done := done + StoreCode(t);
      if !e.pre {
        Put([R11ToAcc]);
        Join(base, done, [R11ToAcc]);
      } else {
        assert done + [] == done;
      }
    }

    method GenArgs(args: seq<Expr>)
      requires forall i :: 0 <= i < |args| ==> Typed(args[i])
      modifies this`code, this`spdepth
      ensures code == old(code) + ArgsCode(args, old(spdepth)) && spdepth == old(spdepth) + |args|
      decreases args, 0
    {
      hide ExprCode, Typed;
      var i := 0;
      while i < |args|
        invariant 0 <= i <= |args| && spdepth == old(spdepth) + i
        invariant code + ArgsCode(args[i..], spdepth) == old(code) + ArgsCode(args, old(spdepth))
      {
        ghost var before, rest := code, ArgsCode(args[i + 1..], spdepth + 1);
        assert args[i..][0] == args[i] && args[i..][1..] == args[i + 1..];
        assert ArgsCode(args[i..], spdepth) == ExprCode(args[i], spdepth) + [Push] + rest;
        Gen(args[i]);
        PutPush();
        assert code + rest == before + (ExprCode(args[i], spdepth - 1) + [Push] + rest);
        i := i + 1;
      }
    }

    method PutLoads(count: nat, skip: nat)
      requires skip <= 1 && skip <= count
      modifies this`code
      ensures code == old(code) + RegisterLoads(count, skip, 0)
    {
      var i := 0;
      while i + skip < count
        invariant i + skip <= count
        invariant code + RegisterLoads(count, skip, i) == old(code) + RegisterLoads(count, skip, 0)
      {
        ghost var before := code;
        Put([ArgFromStack(i, count - 1 - (i + skip))]);
        assert code + RegisterLoads(count, skip, i + 1) == before + RegisterLoads(count, skip, i);
        i := i + 1;
      }
    }

    method PutDrop(n: nat)
      requires n <= spdepth
      modifies this`code, this`spdepth
      ensures code == old(code) + DropCode(n) && spdepth == old(spdepth) - n
    {
      if n != 0 {
        Put([Drop(n)]);
        spdepth := spdepth - n;
      }
    }

    /** gen_call. */
    method GenCall(e: Expr)
      requires Typed(e) && e.Call?
      modifies this`code, this`spdepth
      ensures code == old(code) + ExprCode(e, old(spdepth)) && spdepth == old(spdepth)
      decreases e, 1
    {
      hide ArgsCode, InvokeCode, CastCode;
      ghost var base, d := code, spdepth;
      GenArgs(e.args);
      PutInvoke(e.fn, |e.args|);
      Join(base, ArgsCode(e.args, d), InvokeCode(e.fn, |e.args|, d));
      Put(CastCode(e.ty));
      Join(base, ArgsCode(e.args, d) + InvokeCode(e.fn, |e.args|, d), CastCode(e.ty));
    }

    /** Registers, stack clean-up and the call itself, with count arguments pushed. */
    method PutInvoke(fn: Callee, count: nat)
      requires count <= spdepth && (fn.RawSyscall? ==> count >= 1)
      modifies this`code, this`spdepth
      ensures spdepth == old(spdepth) - count && code == old(code) + InvokeCode(fn, count, spdepth)
    {
      hide RegisterLoads, DropCode;
      ghost var base := code;
      var skip := if fn.RawSyscall? then 1 else 0;
      PutLoads(count, skip);
      ghost var done := RegisterLoads(count, skip, 0);
      if fn.User? {
        PutDrop(count);
        Join(base, done, DropCode(count));
        PutUserCall(fn.index, count);
        Join(base, done + DropCode(count),
             if spdepth % 2 == 1 then [Pad, CallFn(fn.index, count), Drop(1)] else [CallFn(fn.index, count)]);
      } else {
        var pick := if fn.RawSyscall? then [AccFromStack(count - 1)] else [Imm(fn.number)];
        Put(pick);
        Join(base, done, pick);
        PutDrop(count);
        Join(base, done + pick, DropCode(count));
        Put([Syscall(count - skip)]);
        Join(base, done + pick + DropCode(count), [Syscall(count - skip)]);
      }
    }

    method PutUserCall(f: nat, count: nat)
      modifies this`code, this`spdepth
      ensures spdepth == old(spdepth)
      ensures code == old(code) + (if spdepth % 2 == 1 then [Pad, CallFn(f, count), Drop(1)] else [CallFn(f, count)])
    {
      var pad := spdepth % 2 == 1;
      if pad {
        Put([Pad]);
        spdepth := spdepth + 1;
      }
      Put([CallFn(f, count)]);
      if pad {
        PutDrop(1);
      }
    }

    // -------------------------------------------------------------- statements

    /** Aim a list of recorded unconditional jumps at one position. */
    method FixAll(ps: seq<int>, target: int)
      requires Within(ps, 0, |code|)
      modifies this`code
      ensures code == Patched(old(code), 0, ps, target)
    {
      for i := 0 to |ps|
        invariant code == Patched(old(code), 0, ps[..i], target)
      {
        code := code[ps[i] := Jump(target - (ps[i] + 1))];
        PatchedOneMore(old(code), ps[..i], ps[i], target);
        assert ps[..i + 1] == ps[..i] + [ps[i]];
      }
      assert ps[..|ps|] == ps;
    }

    method GenOption(e: Option<Expr>)
      requires TypedOption(e) && spdepth == 0
      modifies this`code, this`spdepth
      ensures code == old(code) + OptionCode(e) && spdepth == 0
    {
      hide ExprCode, Typed;
      if e.Some? {
        Gen(e.value);
      }
    }

    ghost function Snapshot(loop: Pending): Snap
      reads this, loop
    {
      Snap(code, exits, loop.breaks, loop.continues)
    }

    /**
     stmt: code for a statement. Jumps out of it stay unresolved and are recorded;
     ok is false exactly when the source gives up: too many jumps, or break or
     continue outside a loop. The stack is balanced afterwards in every case.
     */
    method Emit(s: Stmt, loop: Pending, inLoop: bool) returns (ok: bool)
      requires TypedStmt(s, true) && spdepth == 0 && Small(CountsOf(Snapshot(loop)))
      modifies this, loop
      ensures spdepth == 0
      ensures ok <==> Fits(s, CountsOf(old(Snapshot(loop))), inLoop)
      ensures ok ==> Snapshot(loop) == Emitted(s, old(Snapshot(loop))) && TypedStmt(s, inLoop)
      decreases s, 1
    {
      hide ExprCode, StmtSize, AllCode, LoopCode, Typed, JumpsInAll, JumpsInLoop, OptionCode, Fits, FitsAll, Tally, Roomy;
      ghost var o := Snapshot(loop);
      FitsJump(s, CountsOf(o), inLoop);
      match s
      case Block(ss) =>
        FitsBlock(ss, CountsOf(o), inLoop);
        ok := EmitAll(ss, loop, inLoop);
      case Eval(e) =>
        EmittedSimple(s, o);
        GenOption(e);
        ok := true;
      case Return(e) => ok := EmitReturn(e, loop);
      case If(_, _, _) => ok := EmitIf(s, loop, inLoop);
      case While(c, b) =>
        EmittedBareLoop(s, o);
        FitsLoop(s, CountsOf(o), inLoop);
        ok := EmitLoop(Some(c), None, b, loop);
      case For(i, t, p, b) =>
        if i.None? {
          EmittedBareLoop(s, o);
          FitsLoop(s, CountsOf(o), inLoop);
          ok := EmitLoop(t, p, b, loop);
        } else {
          ok := EmitFor(s, loop, inLoop);
        }
      case Break =>
        EmittedSimple(s, o);
        ok := inLoop && |loop.breaks| < MAX_JUMPS;
        if ok {
          var at := PutJump(Jump(0));
          loop.breaks := loop.breaks + [at];
        }
      case Continue =>
        EmittedSimple(s, o);
        ok := inLoop && |loop.continues| < MAX_JUMPS;
        if ok {
          var at := PutJump(Jump(0));
          loop.continues := loop.continues + [at];
        }
    }

    method EmitReturn(e: Option<Expr>, loop: Pending) returns (ok: bool)
      requires TypedOption(e) && spdepth == 0
      modifies this
      ensures spdepth == 0 && (ok <==> |old(exits)| < MAX_EXITS)
      ensures ok ==> Snapshot(loop) == Emitted(Return(e), old(Snapshot(loop)))
    {
      hide ExprCode;
      if e.Some? {
        GenOption(e);
      } else {
        Put([Imm(0)]);
      }
      ok := |exits| < MAX_EXITS;
      if ok {
        var at := PutJump(Jump(0));
        exits := exits + [at];
      }
    }

    method EmitAll(ss: seq<Stmt>, loop: Pending, inLoop: bool) returns (ok: bool)
      requires (forall i :: 0 <= i < |ss| ==> TypedStmt(ss[i], true)) && spdepth == 0 && Small(CountsOf(Snapshot(loop)))
      modifies this, loop
      ensures spdepth == 0
      ensures ok <==> FitsAll(ss, CountsOf(old(Snapshot(loop))), inLoop)
      ensures ok ==> Snapshot(loop) == EmittedAll(ss, old(Snapshot(loop)))
      ensures ok ==> forall i :: 0 <= i < |ss| ==> TypedStmt(ss[i], inLoop)
      decreases ss, 0
    {
      hide StmtCode, JumpsIn, TypedStmt, StmtSize, Emitted, Fits, FitsAll, Small, CountsOf, Plus;
      ghost var o := Snapshot(loop);
      assert ss[0..] == ss;
      var i := 0;
      while i < |ss|
        invariant 0 <= i <= |ss| && spdepth == 0 && Small(CountsOf(Snapshot(loop)))
        invariant FitsAll(ss[i..], CountsOf(Snapshot(loop)), inLoop) <==> FitsAll(ss, CountsOf(o), inLoop)
        invariant EmittedAll(ss[i..], Snapshot(loop)) == EmittedAll(ss, o)
        invariant forall j :: 0 <= j < i ==> TypedStmt(ss[j], inLoop)
      {
        EmittedStep(ss[i..], Snapshot(loop));
        assert ss[i..][1..] == ss[i + 1..] && ss[i..][0] == ss[i];
        ghost var before := Snapshot(loop);
        FitsNext(ss[i..], CountsOf(before), inLoop);
        ok := Emit(ss[i], loop, inLoop);
        if !ok {
          return;
        }
        CountsEmitted(ss[i], before);
        FitsSmall(ss[i], CountsOf(before), inLoop);
        i := i + 1;
      }
      FitsNone(CountsOf(Snapshot(loop)), inLoop);
      assert ss[|ss|..] == [];
      EmittedNothing(Snapshot(loop));
      return true;
    }

    method EmitFor(s: Stmt, loop: Pending, inLoop: bool) returns (ok: bool)
      requires s.For? && s.init.Some? && TypedStmt(s, true) && spdepth == 0 && Small(CountsOf(Snapshot(loop)))
      modifies this, loop
      ensures spdepth == 0
      ensures ok <==> Fits(s, CountsOf(old(Snapshot(loop))), inLoop)
      ensures ok ==> Snapshot(loop) == Emitted(s, old(Snapshot(loop))) && TypedStmt(s, inLoop)
      decreases s, 0
    {
      hide Emitted, EmittedLoop, ExprCode, Typed, Fits, Plus;
      ghost var o := Snapshot(loop);
      EmittedFor(s, o);
      FitsLoop(s, CountsOf(o), inLoop);
      ok := Emit(s.init.value, loop, inLoop);
      if ok {
        CountsEmitted(s.init.value, o);
        FitsSmall(s.init.value, CountsOf(o), inLoop);
        ok := EmitLoop(s.test, s.step, s.loop, loop);
      }
    }

    method EmitIf(s: Stmt, loop: Pending, inLoop: bool) returns (ok: bool)
      requires s.If? && TypedStmt(s, true) && spdepth == 0 && Small(CountsOf(Snapshot(loop)))
      modifies this, loop
      ensures spdepth == 0
      ensures ok <==> Fits(s, CountsOf(old(Snapshot(loop))), inLoop)
      ensures ok ==> Snapshot(loop) == Emitted(s, old(Snapshot(loop))) && TypedStmt(s, inLoop)
      decreases s, 0
    {
      IfTyped(s, inLoop);
      hide ExprCode, Typed, TypedStmt, Emitted, IfThen, Fits, Small, Plus, CountsOf;
      ghost var o := Snapshot(loop);
      FitsIf(s, CountsOf(o), inLoop);
      var end;
      ok, end := EmitThen(s, loop, inLoop);
      if ok {
        FitsSmall(s.then_, CountsOf(o), inLoop);
        ok := EmitElse(s, loop, inLoop, end, o);
      }
    }

    /** The test and the then branch, up to the jump over the else branch. */
    method EmitThen(s: Stmt, loop: Pending, inLoop: bool) returns (ok: bool, end: nat)
      requires s.If? && Typed(s.cond) && TypedStmt(s.then_, true) && spdepth == 0 && Small(CountsOf(Snapshot(loop)))
      modifies this, loop
      ensures spdepth == 0
      ensures ok <==> Fits(s.then_, CountsOf(old(Snapshot(loop))), inLoop)
      ensures ok ==> Snapshot(loop) == IfThen(s, old(Snapshot(loop))) && end + 1 == |code| && TypedStmt(s.then_, inLoop)
      ensures ok ==> CountsOf(Snapshot(loop)) == Plus(CountsOf(old(Snapshot(loop))), s.then_)
      decreases s, 0, 0
    {
      hide ExprCode, Typed, TypedStmt, Emitted, IfThen, Fits, Small, Plus, StmtSize;
      ghost var o := Snapshot(loop);
      end := 0;
      Gen(s.cond);
      ghost var pre := code;
      var no := PutJump(JumpZero(0));
      ghost var x := Snapshot(loop);
      assert x == o.(code := pre + [JumpZero(0)]);
      ok := Emit(s.then_, loop, inLoop);
      if !ok {
        return;
      }
      CountsEmitted(s.then_, x);
      EmittedIfThen(s, o);
      end := PutJump(Jump(0));
      Fix(no, |code|);
    }

    /** The else branch, if there is one, and the jump over it. */
    method EmitElse(s: Stmt, loop: Pending, inLoop: bool, end: nat, ghost o: Snap) returns (ok: bool)
      requires s.If? && (s.else_.Some? ==> TypedStmt(s.else_.value, true)) && spdepth == 0 && Small(CountsOf(Snapshot(loop)))
      requires Snapshot(loop) == IfThen(s, o) && end + 1 == |code|
      modifies this, loop
      ensures spdepth == 0
      ensures ok <==> (s.else_.Some? ==> Fits(s.else_.value, CountsOf(old(Snapshot(loop))), inLoop))
      ensures ok ==> Snapshot(loop) == Emitted(s, o) && (s.else_.Some? ==> TypedStmt(s.else_.value, inLoop))
      decreases s, 0, 0
    {
      hide ExprCode, TypedStmt, Emitted, IfThen, Fits, Small;
      ok := true;
      if s.else_.Some? {
        ok := Emit(s.else_.value, loop, inLoop);
        if !ok {
          return;
        }
      }
      EmittedIfElse(s, o);
      Fix(end, |code|);
    }

    /** The loop's test and its placeholder exit jump, if there is a test. */
    method PutTest(test: Option<Expr>) returns (cond: nat)
      requires TypedOption(test) && spdepth == 0
      modifies this`code, this`spdepth
      ensures code == old(code) + TestCode(test, 0) && spdepth == 0
      ensures test.Some? ==> cond + 1 == |code|
    {
      hide ExprCode;
      GenOption(test);
      cond := |code|;
      if test.Some? {
        cond := PutJump(JumpZero(0));
      }
    }

    /** Step, jump back, and the two jumps whose targets are now known. */
    method CloseLoop(test: Option<Expr>, step: Option<Expr>, start: nat, cond: nat, ghost base: seq<Instr>, ghost hole: seq<Instr>)
      requires TypedOption(step) && spdepth == 0 && start == |base|
      requires code == base + TestCode(test, 0) + hole
      requires test.Some? ==> cond + 1 == |base + TestCode(test, 0)|
      modifies this`code, this`spdepth
      ensures spdepth == 0
      ensures var bodyAt, end := start + TestSize(test), start + TestSize(test) + |hole| + |OptionCode(step)| + 1;
              code == base + TestCode(test, end - bodyAt) + (hole + (OptionCode(step) + [Jump(start - end)]))
    {
      hide ExprCode;
      ghost var head := base + TestCode(test, 0);
      GenOption(step);
      var back := PutJump(Jump(0));
      assert code == (head + hole + OptionCode(step)) + [Jump(0)] + [];
      Fix(back, start);
      ghost var end := |code|;
      Replace(head + hole + OptionCode(step), Jump(0), [], Jump(start - end));
      ghost var rest := hole + (OptionCode(step) + [Jump(start - end)]);
      assert code == head + rest;
      if test.Some? {
        PatchTest(base, test, rest, end - |head|);
        assert head[cond] == JumpZero(0);
        Fix(cond, |code|);
      }
    }

    /** The common part of while and for. */
    method EmitLoop(test: Option<Expr>, step: Option<Expr>, body: Stmt, outer: Pending) returns (ok: bool)
      requires TypedOption(test) && TypedOption(step) && TypedStmt(body, true) && spdepth == 0 && |exits| <= MAX_EXITS
      modifies this
      ensures spdepth == 0
      ensures ok <==> Fits(body, Counts(|old(exits)|, 0, 0), true)
      ensures ok ==> Snapshot(outer) == EmittedLoop(test, step, body, old(Snapshot(outer)))
      decreases body, 2
    {
      hide ExprCode, StmtCode, StmtSize, JumpsIn, Typed, TypedStmt, Patched, LoopCode, OptionCode, TestCode, TestSize, Within, Fits, Emitted;
      ghost var base := code;
      var start := |code|;
      var cond := PutTest(test);
      EmittedFresh(body, code, exits);
      ghost var bodyAt := |code|;
      assert bodyAt == start + TestSize(test) by { TestCodeLength(test, 0); }
      var l := new Pending();
      ok := Emit(body, l, true);
      if !ok {
        return;
      }
      ghost var hole := StmtCode(body, bodyAt, NOWHERE);
      StmtCodeSize(body, bodyAt, NOWHERE);
      var cont := |code|;
      CloseLoop(test, step, start, cond, base, hole);
      ResolveLoop(base, test, step, body);
      assert l.breaks == JumpsIn(KBreak, body, bodyAt) && l.continues == JumpsIn(KContinue, body, bodyAt);
      FixAll(l.breaks, |code|);
      FixAll(l.continues, cont);
    }

    // -------------------------------------------------------------- functions

    /** Spill the parameters; each goes through one temporary. */
    method PutParams(ps: seq<Param>)
      requires spdepth == 0
      modifies this`code
      ensures code == old(code) + ParamsCode(ps, 0)
    {
      hide ParamCode;
      var i := 0;
      while i < |ps|
        invariant 0 <= i <= |ps|
        invariant code + ParamsCode(ps[i..], i) == old(code) + ParamsCode(ps, 0)
      {
        ghost var before, rest := code, ParamsCode(ps[i + 1..], i + 1);
        assert ps[i..][0] == ps[i] && ps[i..][1..] == ps[i + 1..];
        Put(ParamCode(i, ps[i]));
        assert code + rest == before + (ParamCode(i, ps[i]) + rest);
        i := i + 1;
      }
    }

    /** One function of generate: prologue, body, and all its returns aimed at the epilogue. */
    method EmitFunc(fn: Func) returns (ok: bool)
      requires TypedStmt(fn.body, true) && spdepth == 0
      modifies this
      ensures spdepth == 0
      ensures ok <==> Emittable(fn)
      ensures ok ==> code == old(code) + FuncCode(fn, |old(code)|) && TypedStmt(fn.body, false)
    {
      EmittableFits(fn);
      hide StmtCode, StmtSize, JumpsIn, ParamsCode, Patched, TypedStmt, Fits, Emittable;
      ghost var base := code;
      Put([Enter(fn.frame)]);
      PutParams(fn.params);
      ghost var head := [Enter(fn.frame)] + ParamsCode(fn.params, 0);
      assert code == base + head;
      exits := [];
      ghost var bodyAt := |code|;
      var outside := new Pending();
      ok := Emit(fn.body, outside, false);
      if !ok {
        return;
      }
      Put([Imm(0)]);
      ResolveFunc(base, fn);
      assert exits == JumpsIn(KReturn, fn.body, bodyAt);
      FixAll(exits, |code|);
      Put([Leave]);
    }

    /** generate: every function in turn, behind whatever entry stub is already in the buffer. */
    method EmitProgram(prog: seq<Func>) returns (ok: bool, entry: seq<int>)
      requires spdepth == 0
      requires forall f :: 0 <= f < |prog| ==>
                 TypedStmt(prog[f].body, true) && Aligned(prog[f].frame)
                 && forall i :: 0 <= i < |prog[f].params| ==> Scalar(prog[f].params[i].ty)
      modifies this
      ensures ok <==> forall f :: 0 <= f < |prog| ==> Emittable(prog[f])
      ensures ok ==> code == old(code) + ProgramCode(prog, |old(code)|) && entry == Entries(prog, |old(code)|)
      ensures ok ==> Linked(prog, code, entry)
    {
      hide FuncCode, TypedStmt, Emittable, ProgramCode, Entries;
      entry := [];
      NoProgram(|code|);
      for f := 0 to |prog|
        invariant spdepth == 0 && |entry| == f && forall k :: 0 <= k < f ==> Emittable(prog[k])
        invariant code == old(code) + ProgramCode(prog[..f], |old(code)|) && entry == Entries(prog[..f], |old(code)|)
        invariant Linked(prog[..f], code, entry)
      {
        ghost var before := code;
        var offset := |code|;
        ok := EmitFunc(prog[f]);
        if !ok {
          return;
        }
        LinkOneMore(prog[..f], prog[f], before, entry);
        ProgramStep(prog[..f], prog[f], |old(code)|);
        assert prog[..f] + [prog[f]] == prog[..f + 1];
        entry := entry + [offset];
      }
      assert prog[..|prog|] == prog;
      ok := true;
    }

    /** generate: the entry stub, the functions, and every call aimed at its function. */
    method Generate(prog: seq<Func>, main: nat) returns (ok: bool, out: seq<LinkedInstr>)
      requires code == [] && spdepth == 0
      requires forall f :: 0 <= f < |prog| ==>
                 TypedStmt(prog[f].body, true) && Aligned(prog[f].frame)
                 && forall i :: 0 <= i < |prog[f].params| ==> Scalar(prog[f].params[i].ty)
      modifies this
      ensures ok <==> (forall f :: 0 <= f < |prog| ==> Emittable(prog[f])) && |Sites(WholeCode(prog, main))| <= MAX_CALLS
      ensures ok ==> out == Resolved(WholeCode(prog, main), Entries(prog, |Stub(main)|))
      ensures ok ==> forall f :: 0 <= f < |prog| ==> TypedFunc(prog[f])
    {
      hide FuncCode, TypedStmt, Emittable, ProgramCode, Entries, Sites, Resolved;
      Put(Stub(main));
      out := [];
      var entry;
      ok, entry := EmitProgram(prog);
      if !ok {
        return;
      }
      assert code == WholeCode(prog, main);
      var blank, calls;
      ok, blank, calls := Record(code);
      if ok {
        out := FixCalls(blank, calls, entry, code);
      }
    }
  }

  /** break and continue inside loops only, and no more jumps than can be recorded. */
  ghost predicate Emittable(fn: Func) {
    TypedStmt(fn.body, false) && Roomy(fn.body) && Tally(KReturn, fn.body) <= MAX_EXITS
  }

  lemma EmittableFits(fn: Func)
    ensures Emittable(fn) <==> Fits(fn.body, Counts(0, 0, 0), false)
  {
    hide TypedStmt, Roomy, Tally;
    if TypedStmt(fn.body, false) {
      NoStrays(fn.body);
    }
  }

  function CountsOf(o: Snap): Counts { Counts(|o.exits|, |o.breaks|, |o.continues|) }

  lemma CountsEmitted(s: Stmt, o: Snap)
    ensures CountsOf(Emitted(s, o)) == Plus(CountsOf(o), s)
  {
    hide StmtCode, JumpsIn, Tally;
    TallyIs(KReturn, s, |o.code|);
    TallyIs(KBreak, s, |o.code|);
    TallyIs(KContinue, s, |o.code|);
  }

  lemma IfTyped(s: Stmt, inLoop: bool)
    requires s.If? && TypedStmt(s, true)
    ensures Typed(s.cond) && TypedStmt(s.then_, true) && (s.else_.Some? ==> TypedStmt(s.else_.value, true))
    ensures TypedStmt(s.then_, inLoop) && (s.else_.Some? ==> TypedStmt(s.else_.value, inLoop)) ==> TypedStmt(s, inLoop)
  {
    hide Typed;
  }

  lemma FitsNext(ss: seq<Stmt>, n: Counts, inLoop: bool)
    requires ss != []
    ensures FitsAll(ss, n, inLoop) <==> Fits(ss[0], n, inLoop) && FitsAll(ss[1..], Plus(n, ss[0]), inLoop)
  {
    hide Fits, Plus;
  }

  lemma FitsNone(n: Counts, inLoop: bool)
    ensures FitsAll([], n, inLoop)
  {
  }

  lemma TestCodeLength(t: Option<Expr>, exit: int)
    ensures |TestCode(t, exit)| == TestSize(t)
  {
  }

  // ---------------------------------------------------------------- what emission adds

  /** The buffer and the recorded jumps. */
  datatype Snap = Snap(code: seq<Instr>, exits: seq<int>, breaks: seq<int>, continues: seq<int>)

  ghost function Emitted(s: Stmt, o: Snap): Snap {
    var at := |o.code|;
    Snap(o.code + StmtCode(s, at, NOWHERE), o.exits + JumpsIn(KReturn, s, at),
         o.breaks + JumpsIn(KBreak, s, at), o.continues + JumpsIn(KContinue, s, at))
  }

  lemma EmittedFresh(s: Stmt, c: seq<Instr>, exits: seq<int>)
    ensures Emitted(s, Snap(c, exits, [], [])) ==
      Snap(c + StmtCode(s, |c|, NOWHERE), exits + JumpsIn(KReturn, s, |c|), JumpsIn(KBreak, s, |c|), JumpsIn(KContinue, s, |c|))
  {
    hide StmtCode, JumpsIn;
    assert [] + JumpsIn(KBreak, s, |c|) == JumpsIn(KBreak, s, |c|);
    assert [] + JumpsIn(KContinue, s, |c|) == JumpsIn(KContinue, s, |c|);
  }

  ghost function EmittedAll(ss: seq<Stmt>, o: Snap): Snap {
    var at := |o.code|;
    Snap(o.code + AllCode(ss, at, NOWHERE), o.exits + JumpsInAll(KReturn, ss, at),
         o.breaks + JumpsInAll(KBreak, ss, at), o.continues + JumpsInAll(KContinue, ss, at))
  }

  ghost function EmittedLoop(t: Option<Expr>, p: Option<Expr>, b: Stmt, o: Snap): Snap {
    o.(code := o.code + LoopCode(t, p, b, |o.code|, NOWHERE),
       exits := o.exits + JumpsInLoop(KReturn, t, b, |o.code|))
  }

  lemma EmittedNothing(o: Snap)
    ensures EmittedAll([], o) == o
  {
    assert o.code + [] == o.code;
  }

  lemma EmittedStep(ss: seq<Stmt>, o: Snap)
    requires ss != []
    ensures EmittedAll(ss, o) == EmittedAll(ss[1..], Emitted(ss[0], o))
  {
    hide StmtCode, JumpsIn, StmtSize;
    var at := |o.code|;
    StmtCodeSize(ss[0], at, NOWHERE);
    var l, r := EmittedAll(ss, o), EmittedAll(ss[1..], Emitted(ss[0], o));
    assert l.code == r.code && l.exits == r.exits && l.breaks == r.breaks && l.continues == r.continues;
  }

  lemma NothingMore(ps: seq<int>)
    ensures ps + [] == ps
  {
  }

  /** A loop without an initializer records only returns. */
  lemma EmittedBareLoop(s: Stmt, o: Snap)
    requires s.While? || (s.For? && s.init.None?)
    ensures Emitted(s, o) == if s.While? then EmittedLoop(Some(s.cond), None, s.loop, o)
                             else EmittedLoop(s.test, s.step, s.loop, o)
  {
    hide LoopCode;
    var test := if s.While? then Some(s.cond) else s.test;
    LoopRecordsReturns(test, s.loop, |o.code|);
    NothingMore(o.breaks);
    NothingMore(o.continues);
  }

  lemma LoopRecordsReturns(t: Option<Expr>, b: Stmt, at: int)
    ensures JumpsInLoop(KBreak, t, b, at) == [] && JumpsInLoop(KContinue, t, b, at) == []
  {
  }

  lemma EmittedSimple(s: Stmt, o: Snap)
    requires s.Eval? || s.Break? || s.Continue?
    ensures Emitted(s, o) ==
              var at := |o.code|;
              if s.Eval? then o.(code := o.code + OptionCode(s.e))
              else if s.Break? then o.(code := o.code + [Jump(0)], breaks := o.breaks + [at])
              else o.(code := o.code + [Jump(0)], continues := o.continues + [at])
  {
    hide OptionCode;
    NothingMore(o.exits);
    NothingMore(o.breaks);
    NothingMore(o.continues);
  }

  lemma EmittedFor(s: Stmt, o: Snap)
    requires s.For? && s.init.Some?
    ensures Emitted(s, o) == EmittedLoop(s.test, s.step, s.loop, Emitted(s.init.value, o))
  {
    hide LoopCode;
    StmtCodeSize(s.init.value, |o.code|, NOWHERE);
    var l, r := Emitted(s, o), EmittedLoop(s.test, s.step, s.loop, Emitted(s.init.value, o));
    LoopRecordsReturns(s.test, s.loop, |o.code| + StmtSize(s.init.value));
    NothingMore(JumpsIn(KBreak, s.init.value, |o.code|));
    NothingMore(JumpsIn(KContinue, s.init.value, |o.code|));
    assert l.code == r.code && l.exits == r.exits && l.breaks == r.breaks && l.continues == r.continues;
  }

  /** After the then branch and the jump over the else branch, with the first jump aimed. */
  ghost function IfThen(s: Stmt, o: Snap): Snap
    requires s.If?
  {
    var n := StmtSize(s.then_);
    var pre := o.(code := o.code + ExprCode(s.cond, 0) + [JumpZero(n + 1)]);
    var y := Emitted(s.then_, pre);
    y.(code := y.code + [Jump(0)])
  }

  lemma EmittedIfThen(s: Stmt, o: Snap)
    requires s.If?
    ensures var pre := o.code + ExprCode(s.cond, 0);
            var y := Emitted(s.then_, o.(code := pre + [JumpZero(0)]));
            && |y.code| == |pre| + 1 + StmtSize(s.then_)
            && y.code[|pre|] == JumpZero(0)
            && IfThen(s, o) == y.(code := (y.code + [Jump(0)])[|pre| := JumpZero(StmtSize(s.then_) + 1)])
  {
    hide ExprCode, StmtCode, JumpsIn, StmtSize;
    var pre, n := o.code + ExprCode(s.cond, 0), StmtSize(s.then_);
    var c := StmtCode(s.then_, |pre| + 1, NOWHERE);
    StmtCodeSize(s.then_, |pre| + 1, NOWHERE);
    assert pre + [JumpZero(0)] + c + [Jump(0)] == pre + [JumpZero(0)] + (c + [Jump(0)]);
    Replace(pre, JumpZero(0), c + [Jump(0)], JumpZero(n + 1));
    assert pre + [JumpZero(n + 1)] + (c + [Jump(0)]) == pre + [JumpZero(n + 1)] + c + [Jump(0)];
  }

  lemma {:induction false} IfCode(s: Stmt, base: seq<Instr>)
    requires s.If?
    ensures var test := ExprCode(s.cond, 0);
            var thenAt := |base| + |test| + 1;
            var yes := StmtCode(s.then_, thenAt, NOWHERE);
            var elseAt := thenAt + StmtSize(s.then_) + 1;
            var no := if s.else_.None? then [] else StmtCode(s.else_.value, elseAt, NOWHERE);
            StmtCode(s, |base|, NOWHERE) == test + [JumpZero(StmtSize(s.then_) + 1)] + yes + [Jump(|no|)] + no
  {
    hide ExprCode, LoopCode, AllCode;
    var elseAt := |base| + |ExprCode(s.cond, 0)| + 1 + StmtSize(s.then_) + 1;
    if s.else_.Some? {
      StmtCodeSize(s.else_.value, elseAt, NOWHERE);
    }
  }

  lemma IfJumps(kind: Kind, s: Stmt, ps: seq<int>, at: int)
    requires s.If?
    ensures var thenAt := at + |ExprCode(s.cond, 0)| + 1;
            var all := ps + JumpsIn(kind, s.then_, thenAt);
            ps + JumpsIn(kind, s, at)
            == if s.else_.None? then all else all + JumpsIn(kind, s.else_.value, thenAt + StmtSize(s.then_) + 1)
  {
    hide ExprCode, StmtSize;
    NothingMore(JumpsIn(kind, s.then_, at + |ExprCode(s.cond, 0)| + 1));
  }

  lemma IfElseCode(s: Stmt, base: seq<Instr>)
    requires s.If?
    ensures var test := ExprCode(s.cond, 0);
            var thenAt := |base| + |test| + 1;
            var mid := base + test + [JumpZero(StmtSize(s.then_) + 1)] + StmtCode(s.then_, thenAt, NOWHERE);
            var no := if s.else_.None? then [] else StmtCode(s.else_.value, |mid| + 1, NOWHERE);
            base + StmtCode(s, |base|, NOWHERE) == (mid + [Jump(0)] + no)[|mid| := Jump(|no|)]
  {
    hide ExprCode, StmtCode, StmtSize;
    var test, n := ExprCode(s.cond, 0), StmtSize(s.then_);
    var thenAt := |base| + |test| + 1;
    var yes := StmtCode(s.then_, thenAt, NOWHERE);
    StmtCodeSize(s.then_, thenAt, NOWHERE);
    var mid := base + test + [JumpZero(n + 1)] + yes;
    var no := if s.else_.None? then [] else StmtCode(s.else_.value, |mid| + 1, NOWHERE);
    Replace(mid, Jump(0), no, Jump(|no|));
    Joined(base, test, JumpZero(n + 1), yes, Jump(|no|), no);
    IfCode(s, base);
  }

  lemma IfThenCode(s: Stmt, o: Snap)
    requires s.If?
    ensures var thenAt := |o.code| + |ExprCode(s.cond, 0)| + 1;
            var mid := o.code + ExprCode(s.cond, 0) + [JumpZero(StmtSize(s.then_) + 1)] + StmtCode(s.then_, thenAt, NOWHERE);
            && IfThen(s, o) == Snap(mid + [Jump(0)], o.exits + JumpsIn(KReturn, s.then_, thenAt),
                                    o.breaks + JumpsIn(KBreak, s.then_, thenAt), o.continues + JumpsIn(KContinue, s.then_, thenAt))
            && |mid| == thenAt + StmtSize(s.then_)
  {
    hide ExprCode, StmtCode, StmtSize, JumpsIn;
    StmtCodeSize(s.then_, |o.code| + |ExprCode(s.cond, 0)| + 1, NOWHERE);
  }

  /** The snapshot with the else branch, if there is one. */
  ghost function WithElse(s: Stmt, o: Snap): Snap
    requires s.If?
  {
    if s.else_.None? then IfThen(s, o) else Emitted(s.else_.value, IfThen(s, o))
  }

  lemma IfElseLists(s: Stmt, o: Snap)
    requires s.If?
    ensures var z, r := WithElse(s, o), Emitted(s, o); r.exits == z.exits && r.breaks == z.breaks && r.continues == z.continues
  {
    hide ExprCode, StmtCode, StmtSize, JumpsIn, IfThen;
    IfThenCode(s, o);
    IfJumps(KReturn, s, o.exits, |o.code|);
    IfJumps(KBreak, s, o.breaks, |o.code|);
    IfJumps(KContinue, s, o.continues, |o.code|);
  }

  lemma IfElseAt(s: Stmt, o: Snap)
    requires s.If?
    ensures var m, z := IfThen(s, o), WithElse(s, o);
            var at := |m.code| - 1;
            && 0 <= at < |z.code| && z.code[at] == Jump(0)
            && Emitted(s, o).code == z.code[at := Jump(|z.code| - (at + 1))]
  {
    hide ExprCode, StmtCode, StmtSize, JumpsIn, IfThen;
    var m := IfThen(s, o);
    var thenAt := |o.code| + |ExprCode(s.cond, 0)| + 1;
    var mid := o.code + ExprCode(s.cond, 0) + [JumpZero(StmtSize(s.then_) + 1)] + StmtCode(s.then_, thenAt, NOWHERE);
    IfThenCode(s, o);
    IfElseCode(s, o.code);
    var no := if s.else_.None? then [] else StmtCode(s.else_.value, |mid| + 1, NOWHERE);
    assert WithElse(s, o).code == mid + [Jump(0)] + no;
  }

  lemma EmittedIfElse(s: Stmt, o: Snap)
    requires s.If?
    ensures var m := IfThen(s, o);
            var at := |m.code| - 1;
            var z := if s.else_.None? then m else Emitted(s.else_.value, m);
            && 0 <= at < |z.code| && z.code[at] == Jump(0)
            && Emitted(s, o) == z.(code := z.code[at := Jump(|z.code| - (at + 1))])
  {
    hide Emitted, IfThen;
    IfElseLists(s, o);
    IfElseAt(s, o);
  }

  /** Aiming a function's returns at its epilogue turns the emitted code into FuncCode. */
  lemma ResolveFunc(base: seq<Instr>, fn: Func)
    ensures var head := [Enter(fn.frame)] + ParamsCode(fn.params, 0);
            var bodyAt := |base| + |head|;
            var c := base + head + StmtCode(fn.body, bodyAt, NOWHERE) + [Imm(0)];
            var exits := JumpsIn(KReturn, fn.body, bodyAt);
            && Within(exits, 0, |c|)
            && Patched(c, 0, exits, |c|) + [Leave] == base + FuncCode(fn, |base|)
  {
    hide Patched, StmtCode, StmtSize, JumpsIn, ParamsCode, Within;
    var head := [Enter(fn.frame)] + ParamsCode(fn.params, 0);
    var bodyAt := |base| + |head|;
    var hole := StmtCode(fn.body, bodyAt, NOWHERE);
    var c := base + head + hole + [Imm(0)];
    var exits := JumpsIn(KReturn, fn.body, bodyAt);
    StmtCodeSize(fn.body, bodyAt, NOWHERE);
    PatchStmt(KReturn, fn.body, bodyAt, NOWHERE, |c|);
    PatchedMiddle(base + head, hole, [Imm(0)], 0, exits, |c|);
    var full := StmtCode(fn.body, bodyAt, Targets(None, None, Some(|c|)));
    assert base + head + full + [Imm(0)] + [Leave] == base + (head + full + [Imm(0)] + [Leave]);
  }

  /** Patching the recorded breaks and continues of a loop body turns the emitted code into LoopCode. */
  lemma ResolveLoop(base: seq<Instr>, t: Option<Expr>, p: Option<Expr>, b: Stmt)
    ensures var start := |base|;
            var bodyAt, end := start + TestSize(t), start + LoopSize(t, p, b);
            var cont := bodyAt + StmtSize(b);
            var brs, cos := JumpsIn(KBreak, b, bodyAt), JumpsIn(KContinue, b, bodyAt);
            var c := base + TestCode(t, end - bodyAt)
                     + (StmtCode(b, bodyAt, NOWHERE) + (OptionCode(p) + [Jump(start - end)]));
            && |c| == end && Within(brs, 0, end) && Within(cos, 0, end)
            && Patched(Patched(c, 0, brs, end), 0, cos, cont) == base + LoopCode(t, p, b, start, NOWHERE)
  {
    hide Patched, StmtCode, StmtSize, JumpsIn, OptionCode, Within, TestCode, TestSize, LoopCode;
    var start := |base|;
    var bodyAt, end := start + TestSize(t), start + LoopSize(t, p, b);
    var cont := bodyAt + StmtSize(b);
    var brs, cos := JumpsIn(KBreak, b, bodyAt), JumpsIn(KContinue, b, bodyAt);
    var top, rest := base + TestCode(t, end - bodyAt), OptionCode(p) + [Jump(start - end)];
    var hole := StmtCode(b, bodyAt, NOWHERE);
    var half := StmtCode(b, bodyAt, Targets(Some(end), None, None));
    var full := StmtCode(b, bodyAt, Targets(Some(end), Some(cont), None));
    StmtCodeSize(b, bodyAt, NOWHERE);
    StmtCodeSize(b, bodyAt, Targets(Some(end), None, None));
    LoopShape(t, p, b, start, NOWHERE);
    assert top + (hole + rest) == top + hole + rest;
    PatchStmt(KBreak, b, bodyAt, NOWHERE, end);
    PatchedMiddle(top, hole, rest, 0, brs, end);
    PatchStmt(KContinue, b, bodyAt, Targets(Some(end), None, None), cont);
    PatchedMiddle(top, half, rest, 0, cos, cont);
    assert top + full + rest == base + (TestCode(t, end - bodyAt) + full + rest);
  }

  /** Aiming the loop's exit test. */
  lemma PatchTest(base: seq<Instr>, test: Option<Expr>, rest: seq<Instr>, exit: int)
    requires test.Some?
    ensures var at := |base| + TestSize(test) - 1;
            (base + TestCode(test, 0) + rest)[at := JumpZero(exit)] == base + TestCode(test, exit) + rest
  {
    hide ExprCode;
    var pre := base + OptionCode(test);
    assert base + TestCode(test, 0) + rest == pre + [JumpZero(0)] + rest;
    Replace(pre, JumpZero(0), rest, JumpZero(exit));
    assert base + TestCode(test, exit) + rest == pre + [JumpZero(exit)] + rest;
  }

  lemma PatchedOneMore(c: seq<Instr>, ps: seq<int>, p: int, target: int)
    requires 0 <= p < |c|
    ensures Patched(c, 0, ps, target)[p := Jump(target - (p + 1))] == Patched(c, 0, ps + [p], target)
  {
    var l, r := Patched(c, 0, ps, target)[p := Jump(target - (p + 1))], Patched(c, 0, ps + [p], target);
    forall k | 0 <= k < |c|
      ensures l[k] == r[k]
    {
      assert k in ps + [p] <==> k in ps || k == p;
    }
  }
}
