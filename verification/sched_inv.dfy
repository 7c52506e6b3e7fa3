/**
 What every critical section of the scheduler keeps: the tables fit together,
 no wakeup is lost, a mutex has one holder, an idle CPU is told of work, and
 virtual times stay close to the floor of their CPU.
 */
module SchedInvariant {
  import opened Basics
  import opened Sched

  // ---------------------------------------------------------------- the invariant

  ghost predicate Struct(s: State) {
    && (forall i :: 0 <= i < |s.tasks| ==> TaskOk(s, s.tasks[i], i))
    && (forall c :: 0 <= c < |s.cpus| ==> CpuOk(s, c))
    && (forall i, j :: 0 <= i < |s.tasks| && 0 <= j < |s.tasks| && SameId(s.tasks[i], s.tasks[j]) ==> i == j)
  }

  ghost predicate SameId(a: Task, b: Task) { a.state != Unused && b.state != Unused && a.id == b.id }

  /** A running task is the current one of its CPU; an idle task is the one of its CPU. */
  ghost predicate TaskOk(s: State, t: Task, i: nat) {
    && t.cpu < |s.cpus|
    && (t.state != Unused ==> 1 <= t.weight <= 4096 && 0 < t.id < s.nextId)
    && (t.state == Running ==> s.cpus[t.cpu].current == i)
    && (t.idle ==> s.cpus[t.cpu].idle == i)
  }

  ghost predicate CpuOk(s: State, c: nat)
    requires c < |s.cpus|
  {
    var cpu := s.cpus[c];
    && cpu.current < |s.tasks| && cpu.idle < |s.tasks| && cpu.slice <= 8
    && (var t := s.tasks[cpu.current]; t.cpu == c && t.state != Unused)
    && (var t := s.tasks[cpu.idle]; t.cpu == c && t.idle && (t.state == Ready || t.state == Running))
  }

  /** A task waits only for what is not there; tasks waiting for the excepted object are not considered. */
  ghost predicate WaitOk(s: State, t: Task, except: Option<Obj>) {
    t.state == Blocked && !(except.Some? && t.waits == except) ==>
      match t.waits
      case None => false
      case Some(Mutex(m)) => Owner(s, m) != 0
      case Some(Semaphore(k)) => Count(s, k) == 0
  }

  ghost predicate WaitsOk(s: State, except: Option<Obj>) {
    forall i :: 0 <= i < |s.tasks| ==> WaitOk(s, s.tasks[i], except)
  }

  /** The tasks that were given a mutex and have not returned it are its owner alone. */
  ghost predicate HeldOk(s: State) {
    forall m: nat, a: nat :: (m, a) in s.held <==> a != 0 && Owner(s, m) == a
  }

  /** A CPU with work, now or later, is marked so. */
  ghost predicate PendingOk(s: State) {
    forall i :: 0 <= i < |s.tasks| && s.tasks[i].cpu < |s.cpus| && Work(s, s.tasks[i], i) ==> s.cpus[s.tasks[i].cpu].pending
  }

  /** Ready, or asleep and off the CPU. What is current runs until the next turn, which looks at everything. */
  predicate Work(s: State, t: Task, i: nat)
    requires t.cpu < |s.cpus|
  {
    !t.idle && (t.state == Ready || (t.state == Sleeping && s.cpus[t.cpu].current != i))
  }

  /** Virtual time a task may be ahead of the floor when slice ticks of its turn are left. */
  function Allowed(slice: nat, d: nat): nat { if slice > 8 then 0 else (8 - slice) * d }

  /** No runnable task is below the floor; the turn of the skipped CPU is not considered. */
  ghost predicate FairOk(s: State, skip: Option<nat>) {
    && (forall i :: 0 <= i < |s.tasks| && Runs(s.tasks[i], s.tasks[i].cpu) && s.tasks[i].cpu < |s.cpus| ==>
          s.tasks[i].vruntime >= s.cpus[s.tasks[i].cpu].floor)
    && (forall c :: 0 <= c < |s.cpus| && skip != Some(c) ==> TurnOk(s, c))
  }

  ghost predicate TurnOk(s: State, c: nat)
    requires c < |s.cpus|
  {
    var cpu := s.cpus[c];
    cpu.current < |s.tasks| && !s.tasks[cpu.current].idle && cpu.slice > 0 ==>
      s.tasks[cpu.current].vruntime <= cpu.floor + Allowed(cpu.slice, Delta(s.tasks[cpu.current]))
  }

  ghost predicate InvBut(s: State, except: Option<Obj>, skip: Option<nat>) {
    Struct(s) && WaitsOk(s, except) && HeldOk(s) && PendingOk(s) && FairOk(s, skip)
  }

  ghost predicate Inv(s: State) { InvBut(s, None, None) }

  // ---------------------------------------------------------------- the floor

  lemma {:induction false} MinVIs(tasks: seq<Task>, c: nat, n: nat)
    requires n <= |tasks|
    ensures forall i :: 0 <= i < n && Runs(tasks[i], c) ==> MinV(tasks, c, n).Some? && MinV(tasks, c, n).value <= tasks[i].vruntime
    ensures MinV(tasks, c, n).Some? ==> exists i :: 0 <= i < n && Runs(tasks[i], c) && tasks[i].vruntime == MinV(tasks, c, n).value
  {
    if n > 0 {
      MinVIs(tasks, c, n - 1);
      if MinV(tasks, c, n).Some? {
        if MinV(tasks, c, n) != MinV(tasks, c, n - 1) {
          assert Runs(tasks[n - 1], c) && tasks[n - 1].vruntime == MinV(tasks, c, n).value;
        } else {
          var i :| 0 <= i < n - 1 && Runs(tasks[i], c) && tasks[i].vruntime == MinV(tasks, c, n - 1).value;
          assert 0 <= i < n && Runs(tasks[i], c);
        }
      }
    }
  }

  ghost predicate Least(tasks: seq<Task>, i: nat, c: nat)
    requires i < |tasks|
  {
    Runs(tasks[i], c) && forall j :: 0 <= j < |tasks| && Runs(tasks[j], c) ==> tasks[i].vruntime <= tasks[j].vruntime
  }

  /** The floor never goes down and never passes a runnable task. */
  lemma FloorIs(s: State, c: nat, skip: Option<nat>)
    requires FairOk(s, skip) && c < |s.cpus|
    ensures Floor(s, c) >= s.cpus[c].floor
    ensures forall i :: 0 <= i < |s.tasks| && Runs(s.tasks[i], c) ==> s.tasks[i].vruntime >= Floor(s, c)
    ensures forall i :: 0 <= i < |s.tasks| && Least(s.tasks, i, c) ==> s.tasks[i].vruntime == Floor(s, c)
  {
    hide TurnOk;
    MinVIs(s.tasks, c, |s.tasks|);
  }

  // ---------------------------------------------------------------- task_ready

  lemma ReadyStruct(s: State, i: nat)
    requires Struct(s) && i < |s.tasks| && (s.tasks[i].state == Blocked || s.tasks[i].state == Sleeping)
    ensures Struct(MakeReady(s, i)) && !s.tasks[i].idle
  {
    hide Floor;
    assert TaskOk(s, s.tasks[i], i) && CpuOk(s, s.tasks[i].cpu);
    var s' := MakeReady(s, i);
    forall j | 0 <= j < |s'.tasks|
      ensures TaskOk(s', s'.tasks[j], j)
    {
      assert TaskOk(s, s.tasks[j], j);
    }
    forall c | 0 <= c < |s'.cpus|
      ensures CpuOk(s', c)
    {
      assert CpuOk(s, c);
    }
    forall j, k | 0 <= j < |s'.tasks| && 0 <= k < |s'.tasks| && SameId(s'.tasks[j], s'.tasks[k])
      ensures j == k
    {
      assert SameId(s.tasks[j], s.tasks[k]);
    }
  }

  lemma ReadyFair(s: State, i: nat, skip: Option<nat>)
    requires Struct(s) && FairOk(s, skip) && i < |s.tasks| && (s.tasks[i].state == Blocked || s.tasks[i].state == Sleeping)
    ensures FairOk(MakeReady(s, i), skip)
  {
    hide Floor, Allowed, Delta;
    assert TaskOk(s, s.tasks[i], i);
    var c := s.tasks[i].cpu;
    FloorIs(s, c, skip);
    var s' := MakeReady(s, i);
    forall k | 0 <= k < |s'.cpus| && skip != Some(k)
      ensures TurnOk(s', k)
    {
      assert TurnOk(s, k) && CpuOk(s, k);
      SameDelta(s.tasks[i], s'.tasks[i]);
    }
  }

  lemma SameDelta(a: Task, b: Task)
    requires a.weight == b.weight
    ensures Delta(a) == Delta(b)
  {
  }

  lemma ReadyKeeps(s: State, i: nat, except: Option<Obj>, skip: Option<nat>)
    requires InvBut(s, except, skip) && i < |s.tasks| && (s.tasks[i].state == Blocked || s.tasks[i].state == Sleeping)
    ensures s.tasks[i].cpu < |s.cpus| && InvBut(MakeReady(s, i), except, skip)
    ensures forall c :: 0 <= c < |s.cpus| ==> MakeReady(s, i).cpus[c].floor >= s.cpus[c].floor
  {
    hide Floor, TaskOk, CpuOk, FairOk;
    assert TaskOk(s, s.tasks[i], i);
    ReadyStruct(s, i);
    ReadyFair(s, i, skip);
    TaskCpu(s, i);
    FloorIs(s, s.tasks[i].cpu, skip);
  }

  lemma TaskCpu(s: State, i: nat)
    requires Struct(s) && i < |s.tasks|
    ensures s.tasks[i].cpu < |s.cpus|
  {
    assert TaskOk(s, s.tasks[i], i);
  }

  lemma StructBound(s: State)
    requires Struct(s)
    ensures Bound(s)
  {
    forall i | 0 <= i < |s.tasks|
      ensures s.tasks[i].cpu < |s.cpus|
    {
      TaskCpu(s, i);
    }
  }

  // ---------------------------------------------------------------- wake_object and sleepers

  /** No task waits for o. */
  ghost predicate NoneWaits(s: State, o: Obj, n: nat) {
    forall i :: 0 <= i < n && i < |s.tasks| ==> !(s.tasks[i].state == Blocked && s.tasks[i].waits == Some(o))
  }

  /** Tasks that already run are not touched by waking others. */
  ghost predicate RunnersKept(s: State, s': State) {
    && |s'.tasks| == |s.tasks| && |s'.cpus| == |s.cpus|
    && (forall i :: 0 <= i < |s.tasks| && s.tasks[i].state != Blocked && s.tasks[i].state != Sleeping ==> s'.tasks[i] == s.tasks[i])
    && (forall i :: 0 <= i < |s.tasks| ==> s'.tasks[i].cpu == s.tasks[i].cpu && s'.tasks[i].weight == s.tasks[i].weight
                                           && s'.tasks[i].id == s.tasks[i].id && s'.tasks[i].depth == s.tasks[i].depth)
    && (forall i :: 0 <= i < |s.tasks| && s'.tasks[i] != s.tasks[i] ==> s'.tasks[i].state == Ready)
    && (forall c :: 0 <= c < |s.cpus| ==>
          && s'.cpus[c].floor >= s.cpus[c].floor && s'.cpus[c].current == s.cpus[c].current
          && s'.cpus[c].slice == s.cpus[c].slice && s'.cpus[c].idle == s.cpus[c].idle)
    && s'.owner == s.owner && s'.count == s.count && s'.held == s.held && s'.nextId == s.nextId
  }

  lemma ReadyRunners(s: State, i: nat)
    requires i < |s.tasks| && s.tasks[i].cpu < |s.cpus| && (s.tasks[i].state == Blocked || s.tasks[i].state == Sleeping)
    requires forall c :: 0 <= c < |s.cpus| ==> MakeReady(s, i).cpus[c].floor >= s.cpus[c].floor
    ensures RunnersKept(s, MakeReady(s, i))
  {
    hide Floor;
  }

  lemma RunnersJoin(a: State, b: State, c: State)
    requires RunnersKept(a, b) && RunnersKept(b, c)
    ensures RunnersKept(a, c)
  {
  }

  lemma {:induction false} WakeKeeps(s: State, o: Obj, i: nat)
    requires InvBut(s, Some(o), None) && i <= |s.tasks| && Bound(s) && NoneWaits(s, o, i)
    ensures InvBut(WakeFrom(s, o, i), Some(o), None) && NoneWaits(WakeFrom(s, o, i), o, |s.tasks|) && RunnersKept(s, WakeFrom(s, o, i))
    decreases |s.tasks| - i
  {
    hide InvBut, MakeReady, RunnersKept;
    if i == |s.tasks| {
      RunnersSame(s);
    } else if s.tasks[i].state == Blocked && s.tasks[i].waits == Some(o) {
      ReadyKeeps(s, i, Some(o), None);
      ReadyRunners(s, i);
      var s1 := MakeReady(s, i);
      InvBound(s1, Some(o), None);
      NoneWaitsMore(s, o, i);
      WakeKeeps(s1, o, i + 1);
      RunnersJoin(s, s1, WakeFrom(s1, o, i + 1));
    } else {
      WakeKeeps(s, o, i + 1);
    }
  }

  lemma RunnersSame(s: State)
    ensures RunnersKept(s, s)
  {
  }

  lemma InvBound(s: State, except: Option<Obj>, skip: Option<nat>)
    requires InvBut(s, except, skip)
    ensures Bound(s)
  {
    hide FairOk, WaitsOk, PendingOk, HeldOk;
    StructBound(s);
  }

  lemma NoneWaitsMore(s: State, o: Obj, i: nat)
    requires i < |s.tasks| && s.tasks[i].cpu < |s.cpus| && NoneWaits(s, o, i)
    ensures |MakeReady(s, i).tasks| == |s.tasks| && NoneWaits(MakeReady(s, i), o, i + 1)
  {
    hide Floor;
  }

  lemma NoneLeft(s: State, o: Obj)
    requires InvBut(s, Some(o), None) && NoneWaits(s, o, |s.tasks|)
    ensures Inv(s)
  {
    hide Struct, HeldOk, PendingOk, FairOk;
    forall i | 0 <= i < |s.tasks|
      ensures WaitOk(s, s.tasks[i], None)
    {
      assert WaitOk(s, s.tasks[i], Some(o));
    }
  }

  lemma {:induction false} SleepersKeep(s: State, c: nat, now: nat, i: nat, skip: Option<nat>)
    requires InvBut(s, None, skip) && i <= |s.tasks| && Bound(s)
    ensures InvBut(WakeSleepers(s, c, now, i), None, skip) && RunnersKept(s, WakeSleepers(s, c, now, i))
    decreases |s.tasks| - i
  {
    hide InvBut, MakeReady, RunnersKept;
    if i == |s.tasks| {
      RunnersSame(s);
    } else if s.tasks[i].cpu == c && s.tasks[i].state == Sleeping && now >= s.tasks[i].wake {
      ReadyKeeps(s, i, None, skip);
      ReadyRunners(s, i);
      var s1 := MakeReady(s, i);
      InvBound(s1, None, skip);
      ReadyLength(s, i);
      SleepersKeep(s1, c, now, i + 1, skip);
      RunnersJoin(s, s1, WakeSleepers(s1, c, now, i + 1));
    } else {
      SleepersKeep(s, c, now, i + 1, skip);
    }
  }

  lemma ReadyLength(s: State, i: nat)
    requires i < |s.tasks| && s.tasks[i].cpu < |s.cpus|
    ensures |MakeReady(s, i).tasks| == |s.tasks|
  {
  }

  // ---------------------------------------------------------------- kernel_schedule

  lemma AllowedStep(slice: nat, d: nat)
    requires 0 < slice <= 8
    ensures Allowed(slice - 1, d) == Allowed(slice, d) + d
  {
    assert (8 - (slice - 1)) * d == (8 - slice) * d + d;
  }

  /** The CPU whose turn is not accounted for after a charge: one that pays without using up its slice. */
  function Unsettled(s: State, c: nat, forced: bool): Option<nat>
    requires c < |s.cpus| && s.cpus[c].current < |s.tasks|
  {
    var t := s.tasks[s.cpus[c].current];
    if forced && !t.idle && t.state == Running && t.depth == 0 then Some(c) else None
  }

  lemma ChargedStruct(s: State, c: nat, forced: bool)
    requires Struct(s) && c < |s.cpus| && s.cpus[c].current < |s.tasks|
    ensures Struct(Charged(s, c, forced))
  {
    hide Delta;
    var s' := Charged(s, c, forced);
    forall j | 0 <= j < |s'.tasks|
      ensures TaskOk(s', s'.tasks[j], j)
    {
      assert TaskOk(s, s.tasks[j], j);
    }
    forall k | 0 <= k < |s'.cpus|
      ensures CpuOk(s', k)
    {
      assert CpuOk(s, k);
    }
    forall j, k | 0 <= j < |s'.tasks| && 0 <= k < |s'.tasks| && SameId(s'.tasks[j], s'.tasks[k])
      ensures j == k
    {
      assert SameId(s.tasks[j], s.tasks[k]);
    }
  }

  lemma ChargedFair(s: State, c: nat, forced: bool)
    requires Struct(s) && FairOk(s, None) && c < |s.cpus| && s.cpus[c].current < |s.tasks|
    ensures FairOk(Charged(s, c, forced), Unsettled(s, c, forced))
  {
    hide Delta, Allowed, TaskOk;
    var s' := Charged(s, c, forced);
    var i := s.cpus[c].current;
    SameDelta(s.tasks[i], s'.tasks[i]);
    forall k | 0 <= k < |s'.cpus| && Unsettled(s, c, forced) != Some(k)
      ensures TurnOk(s', k)
    {
      assert TurnOk(s, k) && CpuOk(s, k) && CpuOk(s, c);
      if k == c && !forced && s.cpus[c].slice > 0 {
        AllowedStep(s.cpus[c].slice, Delta(s.tasks[i]));
      }
    }
  }

  lemma ChargedKeeps(s: State, c: nat, forced: bool)
    requires Inv(s) && c < |s.cpus| && s.cpus[c].current < |s.tasks|
    ensures InvBut(Charged(s, c, forced), None, Unsettled(s, c, forced))
  {
    hide Delta, Struct, FairOk;
    ChargedStruct(s, c, forced);
    ChargedFair(s, c, forced);
  }

  lemma {:induction false} BestIs(tasks: seq<Task>, c: nat, n: nat)
    requires n <= |tasks|
    ensures forall i :: 0 <= i < n && Candidate(tasks[i], c) ==>
      Best(tasks, c, n).Some? && tasks[Best(tasks, c, n).value].vruntime <= tasks[i].vruntime
    ensures Best(tasks, c, n).Some? ==> Candidate(tasks[Best(tasks, c, n).value], c)
  {
    if n > 0 {
      BestIs(tasks, c, n - 1);
    }
  }

  /** The table with the current task put back. */
  function PutBack(s: State, c: nat): seq<Task>
    requires c < |s.cpus| && s.cpus[c].current < |s.tasks|
  {
    var i := s.cpus[c].current;
    if s.tasks[i].state == Running then s.tasks[i := s.tasks[i].(state := Ready)] else s.tasks
  }

  function Chosen(s: State, c: nat): nat
    requires c < |s.cpus| && s.cpus[c].current < |s.tasks|
  {
    var best := Best(PutBack(s, c), c, |s.tasks|);
    if best.Some? then best.value else s.cpus[c].idle
  }

  /** What the choice is, in terms of the tables alone. */
  lemma SwitchedIs(s: State, c: nat, sleepers: bool)
    requires Struct(s) && FairOk(s, Some(c)) && c < |s.cpus|
    ensures CpuOk(s, c)
    ensures var s', j, tasks := Switched(s, c, sleepers), Chosen(s, c), PutBack(s, c);
      && j < |s.tasks| && tasks[j].cpu == c && tasks[j].state == Ready && (tasks[j].idle <==> j == s.cpus[c].idle)
      && s'.tasks == tasks[j := tasks[j].(state := Running)] && |s'.cpus| == |s.cpus|
      && (forall k :: 0 <= k < |s.cpus| && k != c ==> s'.cpus[k] == s.cpus[k])
      && s'.cpus[c].current == j && s'.cpus[c].idle == s.cpus[c].idle && 1 <= s'.cpus[c].slice <= 8
      && s'.cpus[c].pending == (!tasks[j].idle || sleepers) && s'.cpus[c].floor >= s.cpus[c].floor
      && s'.owner == s.owner && s'.count == s.count && s'.held == s.held && s'.nextId == s.nextId
    ensures forall i :: 0 <= i < |s.tasks| && Candidate(PutBack(s, c)[i], c) ==> !PutBack(s, c)[Chosen(s, c)].idle
    ensures forall i :: 0 <= i < |s.tasks| && Runs(Switched(s, c, sleepers).tasks[i], c) ==>
      Switched(s, c, sleepers).tasks[i].vruntime >= Switched(s, c, sleepers).cpus[c].floor
    ensures !PutBack(s, c)[Chosen(s, c)].idle ==> PutBack(s, c)[Chosen(s, c)].vruntime == Switched(s, c, sleepers).cpus[c].floor
  {
    hide Best, Weights, Slice, Floor, SameId;
    assert CpuOk(s, c);
    var i, tasks, j := s.cpus[c].current, PutBack(s, c), Chosen(s, c);
    assert TaskOk(s, s.tasks[s.cpus[c].idle], s.cpus[c].idle);
    BestIs(tasks, c, |tasks|);
    var after := s.(tasks := tasks[j := tasks[j].(state := Running)],
                    cpus := s.cpus[c := s.cpus[c].(pending := !tasks[j].idle || sleepers)]);
    assert TaskOk(s, s.tasks[j], j);
    AfterFair(s, c, after, j);
    FloorIs(after, c, Some(c));
    if !tasks[j].idle {
      LeastChosen(s, c, after, j);
    }
  }

  lemma AfterFair(s: State, c: nat, after: State, j: nat)
    requires Struct(s) && FairOk(s, Some(c)) && c < |s.cpus| && CpuOk(s, c) && j < |s.tasks|
    requires PutBack(s, c)[j].state == Ready && after.tasks == PutBack(s, c)[j := PutBack(s, c)[j].(state := Running)]
    requires |after.cpus| == |s.cpus| && forall k :: 0 <= k < |s.cpus| ==>
      after.cpus[k].floor == s.cpus[k].floor && after.cpus[k].current == s.cpus[k].current && after.cpus[k].slice == s.cpus[k].slice
    ensures FairOk(after, Some(c))
  {
    hide Allowed, Delta, TaskOk;
    forall i | 0 <= i < |s.tasks|
      ensures after.tasks[i].vruntime == s.tasks[i].vruntime && after.tasks[i].cpu == s.tasks[i].cpu
      ensures after.tasks[i].idle == s.tasks[i].idle && Delta(after.tasks[i]) == Delta(s.tasks[i])
      ensures Runs(after.tasks[i], after.tasks[i].cpu) ==> Runs(s.tasks[i], s.tasks[i].cpu)
    {
      SameDelta(after.tasks[i], s.tasks[i]);
    }
    forall k | 0 <= k < |s.cpus| && k != c
      ensures TurnOk(after, k)
    {
      assert TurnOk(s, k) && CpuOk(s, k);
    }
  }

  /** The chosen task has the least virtual time of its CPU. */
  lemma LeastChosen(s: State, c: nat, after: State, j: nat)
    requires Struct(s) && c < |s.cpus| && CpuOk(s, c) && j < |s.tasks| && Candidate(PutBack(s, c)[j], c)
    requires forall i :: 0 <= i < |s.tasks| && Candidate(PutBack(s, c)[i], c) ==> PutBack(s, c)[j].vruntime <= PutBack(s, c)[i].vruntime
    requires after.tasks == PutBack(s, c)[j := PutBack(s, c)[j].(state := Running)]
    ensures Least(after.tasks, j, c) && after.tasks[j].vruntime == PutBack(s, c)[j].vruntime
  {
    hide SameId;
    forall i | 0 <= i < |s.tasks| && Runs(after.tasks[i], c)
      ensures after.tasks[j].vruntime <= after.tasks[i].vruntime
    {
      assert TaskOk(s, s.tasks[i], i);
    }
  }

  lemma SwitchedStruct(s: State, c: nat, sleepers: bool)
    requires Struct(s) && FairOk(s, Some(c)) && c < |s.cpus| && CpuOk(s, c)
    ensures Struct(Switched(s, c, sleepers))
  {
    hide Switched, Chosen, FairOk;
    SwitchedIs(s, c, sleepers);
    var s', j := Switched(s, c, sleepers), Chosen(s, c);
    var i := s.cpus[c].current;
    forall k | 0 <= k < |s'.tasks|
      ensures TaskOk(s', s'.tasks[k], k)
    {
      assert TaskOk(s, s.tasks[k], k);
    }
    forall k | 0 <= k < |s'.cpus|
      ensures CpuOk(s', k)
    {
      assert CpuOk(s, k);
      assert TaskOk(s, s.tasks[s.cpus[k].idle], s.cpus[k].idle);
    }
    forall k, l | 0 <= k < |s'.tasks| && 0 <= l < |s'.tasks| && SameId(s'.tasks[k], s'.tasks[l])
      ensures k == l
    {
      assert SameId(s.tasks[k], s.tasks[l]);
    }
  }

  lemma SwitchedFair(s: State, c: nat, sleepers: bool)
    requires Struct(s) && FairOk(s, Some(c)) && c < |s.cpus| && CpuOk(s, c)
    ensures FairOk(Switched(s, c, sleepers), None)
  {
    hide Switched, Chosen, Allowed, Delta, Struct;
    SwitchedIs(s, c, sleepers);
    var s', j := Switched(s, c, sleepers), Chosen(s, c);
    forall i | 0 <= i < |s.tasks|
      ensures s'.tasks[i].vruntime == s.tasks[i].vruntime && s'.tasks[i].cpu == s.tasks[i].cpu
      ensures s'.tasks[i].idle == s.tasks[i].idle && Delta(s'.tasks[i]) == Delta(s.tasks[i])
      ensures Runs(s'.tasks[i], s'.tasks[i].cpu) ==> Runs(s.tasks[i], s.tasks[i].cpu)
    {
      SameDelta(s'.tasks[i], s.tasks[i]);
    }
    forall k | 0 <= k < |s.cpus|
      ensures TurnOk(s', k)
    {
      if k != c {
        assert TurnOk(s, k);
      }
    }
  }

  lemma SwitchedPending(s: State, c: nat)
    requires Struct(s) && FairOk(s, Some(c)) && PendingOk(s) && c < |s.cpus| && CpuOk(s, c)
    ensures PendingOk(Switched(s, c, Sleepers(s.tasks, c)))
  {
    hide Switched, Chosen, FairOk;
    SwitchedIs(s, c, Sleepers(s.tasks, c));
    var s', j := Switched(s, c, Sleepers(s.tasks, c)), Chosen(s, c);
    forall i | 0 <= i < |s'.tasks| && s'.tasks[i].cpu < |s'.cpus| && Work(s', s'.tasks[i], i)
      ensures s'.cpus[s'.tasks[i].cpu].pending
    {
      assert s'.tasks[i].cpu == s.tasks[i].cpu;
      if s.tasks[i].cpu == c {
        assert TaskOk(s, s.tasks[i], i);
        if s.tasks[i].state == Sleeping {
          assert Sleeper(s.tasks[i], c);
        } else {
          assert Candidate(PutBack(s, c)[i], c);
        }
      }
    }
  }

  lemma SwitchedKeeps(s: State, c: nat)
    requires InvBut(s, None, Some(c)) && c < |s.cpus| && CpuOk(s, c)
    ensures Inv(Switched(s, c, Sleepers(s.tasks, c)))
  {
    hide Switched, Chosen, FairOk, Struct, PendingOk;
    var sl := Sleepers(s.tasks, c);
    SwitchedStruct(s, c, sl);
    SwitchedFair(s, c, sl);
    SwitchedPending(s, c);
    SwitchedIs(s, c, sl);
    var s' := Switched(s, c, sl);
    forall i | 0 <= i < |s'.tasks|
      ensures WaitOk(s', s'.tasks[i], None)
    {
      assert WaitOk(s, s.tasks[i], None);
    }
  }

  lemma FairSkip(s: State, except: Option<Obj>, skip: Option<nat>, c: nat)
    requires InvBut(s, except, skip) && (skip == None || skip == Some(c))
    ensures InvBut(s, except, Some(c))
  {
    hide Struct, WaitsOk, HeldOk, PendingOk, TurnOk;
  }

  lemma CpuAt(s: State, c: nat)
    requires Struct(s) && c < |s.cpus|
    ensures CpuOk(s, c)
  {
    hide TaskOk;
  }

  /** A CPU may be scheduled in every state. */
  lemma CanSchedule(s: State, c: nat)
    requires Inv(s) && c < |s.cpus|
    ensures s.cpus[c].current < |s.tasks| && s.cpus[c].idle < |s.tasks| && Bound(s)
  {
    hide TaskOk, FairOk, WaitsOk, HeldOk, PendingOk;
    CpuAt(s, c);
    StructBound(s);
  }

  lemma ScheduleKeeps(s: State, c: nat, forced: bool, now: nat)
    requires Inv(s) && c < |s.cpus|
    ensures s.cpus[c].current < |s.tasks| && s.cpus[c].idle < |s.tasks| && Bound(s)
    ensures Inv(Schedule(s, c, forced, now))
  {
    hide Charged, WakeSleepers, Switched, InvBut, Unsettled, KeepsRunning, Sleepers;
    CanSchedule(s, c);
    if !forced && s.tasks[s.cpus[c].current].idle && !s.cpus[c].pending {
      return;
    }
    var skip := Unsettled(s, c, forced);
    ChargedKeeps(s, c, forced);
    var s1 := Charged(s, c, forced);
    InvBound(s1, None, skip);
    ChargedTables(s, c, forced);
    SleepersKeep(s1, c, now, 0, skip);
    WakeKeepsTables(s1, c, now, 0);
    var s2 := WakeSleepers(s1, c, now, 0);
    InvCpu(s2, None, skip, c);
    if KeepsRunning(s2, c, forced) {
      StillRunning(s, s1, s2, c, forced);
    } else {
      UnsettledIs(s, c, forced);
      FairSkip(s2, None, skip, c);
      SwitchedKeeps(s2, c);
    }
  }

  lemma InvCpu(s: State, except: Option<Obj>, skip: Option<nat>, c: nat)
    requires InvBut(s, except, skip) && c < |s.cpus|
    ensures CpuOk(s, c)
  {
    hide FairOk, WaitsOk, HeldOk, PendingOk;
    CpuAt(s, c);
  }

  lemma UnsettledIs(s: State, c: nat, forced: bool)
    requires c < |s.cpus| && s.cpus[c].current < |s.tasks|
    ensures Unsettled(s, c, forced) == None || Unsettled(s, c, forced) == Some(c)
  {
  }

  lemma ChargedTables(s: State, c: nat, forced: bool)
    requires c < |s.cpus| && s.cpus[c].current < |s.tasks|
    ensures var s1, i := Charged(s, c, forced), s.cpus[c].current;
      && |s1.tasks| == |s.tasks| && |s1.cpus| == |s.cpus| && s1.cpus[c].current == i && s1.cpus[c].idle == s.cpus[c].idle
      && s1.tasks[i].state == s.tasks[i].state && s1.tasks[i].depth == s.tasks[i].depth && s1.tasks[i].idle == s.tasks[i].idle
  {
    hide Delta;
  }

  /** A task that keeps its CPU has accounted for its turn. */
  lemma StillRunning(s: State, s1: State, s2: State, c: nat, forced: bool)
    requires c < |s.cpus| && s.cpus[c].current < |s.tasks| && s1 == Charged(s, c, forced) && RunnersKept(s1, s2)
    requires c < |s2.cpus| && s2.cpus[c].current < |s2.tasks| && KeepsRunning(s2, c, forced)
    ensures Unsettled(s, c, forced) == None
  {
    hide Delta, Charged;
    ChargedTables(s, c, forced);
  }

  // ---------------------------------------------------------------- the other critical sections

  /** A running task of its CPU leaves for another state without changing anything else that counts. */
  lemma LeaveKeeps(s: State, i: nat, t: Task)
    requires Inv(s) && i < |s.tasks| && s.tasks[i].state == Running && !s.tasks[i].idle
    requires t.id == s.tasks[i].id && t.cpu == s.tasks[i].cpu && t.weight == s.tasks[i].weight && t.idle == s.tasks[i].idle
    requires t.vruntime == s.tasks[i].vruntime && t.state in {Sleeping, Blocked, Zombie} && WaitOk(s, t, None)
    ensures Inv(SetTask(s, i, t))
  {
    hide Delta, Allowed;
    LeaveStruct(s, i, t);
    hide Struct, TaskOk;
    var s' := SetTask(s, i, t);
    forall c | 0 <= c < |s'.cpus|
      ensures TurnOk(s', c)
    {
      assert TurnOk(s, c);
      SameDelta(s.tasks[i], t);
    }
    forall j | 0 <= j < |s'.tasks|
      ensures WaitOk(s', s'.tasks[j], None)
    {
      assert WaitOk(s, s.tasks[j], None);
    }
  }

  lemma LeaveStruct(s: State, i: nat, t: Task)
    requires Struct(s) && i < |s.tasks| && s.tasks[i].state == Running && !s.tasks[i].idle
    requires t.id == s.tasks[i].id && t.cpu == s.tasks[i].cpu && t.weight == s.tasks[i].weight && t.idle == s.tasks[i].idle
    requires t.state in {Sleeping, Blocked, Zombie}
    ensures Struct(SetTask(s, i, t))
  {
    var s' := SetTask(s, i, t);
    forall j | 0 <= j < |s'.tasks|
      ensures TaskOk(s', s'.tasks[j], j)
    {
      assert TaskOk(s, s.tasks[j], j);
    }
    forall c | 0 <= c < |s'.cpus|
      ensures CpuOk(s', c)
    {
      assert CpuOk(s, c);
    }
    forall j, k | 0 <= j < |s'.tasks| && 0 <= k < |s'.tasks| && SameId(s'.tasks[j], s'.tasks[k])
      ensures j == k
    {
      assert SameId(s.tasks[j], s.tasks[k]);
    }
  }

  /** Changing the preemption depth of a task. */
  lemma DepthKeeps(s: State, i: nat, depth: nat)
    requires Inv(s) && i < |s.tasks|
    ensures Inv(SetTask(s, i, s.tasks[i].(depth := depth)))
  {
    hide Delta, Allowed;
    var t := s.tasks[i].(depth := depth);
    var s' := SetTask(s, i, t);
    forall j | 0 <= j < |s'.tasks|
      ensures TaskOk(s', s'.tasks[j], j) && WaitOk(s', s'.tasks[j], None)
    {
      assert TaskOk(s, s.tasks[j], j) && WaitOk(s, s.tasks[j], None);
    }
    forall c | 0 <= c < |s'.cpus|
      ensures CpuOk(s', c) && TurnOk(s', c)
    {
      assert CpuOk(s, c) && TurnOk(s, c);
      SameDelta(s.tasks[i], t);
    }
    forall j, k | 0 <= j < |s'.tasks| && 0 <= k < |s'.tasks| && SameId(s'.tasks[j], s'.tasks[k])
      ensures j == k
    {
      assert SameId(s.tasks[j], s.tasks[k]);
    }
  }

  /** A zombie that no CPU is on is freed. */
  lemma ReapKeeps(s: State, i: nat)
    requires Inv(s) && i < |s.tasks| && s.tasks[i].state == Zombie && 0 < |s.cpus|
    requires forall c :: 0 <= c < |s.cpus| ==> s.cpus[c].current != i
    ensures Inv(SetTask(s, i, NO_TASK))
  {
    hide Delta, Allowed;
    var s' := SetTask(s, i, NO_TASK);
    forall j | 0 <= j < |s'.tasks|
      ensures TaskOk(s', s'.tasks[j], j) && WaitOk(s', s'.tasks[j], None)
    {
      assert TaskOk(s, s.tasks[j], j) && WaitOk(s, s.tasks[j], None);
    }
    forall c | 0 <= c < |s'.cpus|
      ensures CpuOk(s', c) && TurnOk(s', c)
    {
      assert CpuOk(s, c) && TurnOk(s, c);
    }
    forall j, k | 0 <= j < |s'.tasks| && 0 <= k < |s'.tasks| && SameId(s'.tasks[j], s'.tasks[k])
      ensures j == k
    {
      assert SameId(s.tasks[j], s.tasks[k]);
    }
  }

  lemma CreateKeeps(s: State, i: nat, cpu: nat, weight: nat)
    requires Inv(s) && i < |s.tasks| && s.tasks[i].state == Unused && cpu < |s.cpus| && 1 <= weight <= 4096 && 0 < s.nextId
    ensures Inv(Created(s, i, cpu, weight))
  {
    hide Delta, Allowed, Floor;
    CreateStruct(s, i, cpu, weight);
    FloorIs(s, cpu, None);
    var s' := Created(s, i, cpu, weight);
    forall c | 0 <= c < |s'.cpus|
      ensures TurnOk(s', c)
    {
      assert TurnOk(s, c) && CpuOk(s, c);
    }
    hide Struct;
    forall j | 0 <= j < |s'.tasks|
      ensures WaitOk(s', s'.tasks[j], None)
    {
      assert WaitOk(s, s.tasks[j], None);
    }
  }

  lemma CreateStruct(s: State, i: nat, cpu: nat, weight: nat)
    requires Struct(s) && i < |s.tasks| && s.tasks[i].state == Unused && cpu < |s.cpus| && 1 <= weight <= 4096 && 0 < s.nextId
    ensures Struct(Created(s, i, cpu, weight))
  {
    hide Floor;
    var s' := Created(s, i, cpu, weight);
    forall j | 0 <= j < |s'.tasks|
      ensures TaskOk(s', s'.tasks[j], j)
    {
      assert TaskOk(s, s.tasks[j], j);
    }
    forall c | 0 <= c < |s'.cpus|
      ensures CpuOk(s', c)
    {
      assert CpuOk(s, c);
    }
    forall j, k | 0 <= j < |s'.tasks| && 0 <= k < |s'.tasks| && SameId(s'.tasks[j], s'.tasks[k])
      ensures j == k
    {
      assert TaskOk(s, s.tasks[j], j) && TaskOk(s, s.tasks[k], k);
      assert j != i && k != i ==> SameId(s.tasks[j], s.tasks[k]);
    }
  }

  /** The new CPU as the last one; only the idle task's place has changed. */
  lemma StartedIs(s: State, i: nat)
    requires i < |s.tasks|
    ensures var s', n := Started(s, i), |s.cpus|;
      && |s'.tasks| == |s.tasks| && |s'.cpus| == n + 1 && s'.nextId == s.nextId + 1
      && (forall c :: 0 <= c < n ==> s'.cpus[c] == s.cpus[c])
      && (forall j :: 0 <= j < |s.tasks| && j != i ==> s'.tasks[j] == s.tasks[j])
      && s'.cpus[n] == Cpu(i, i, 0, s'.cpus[n].floor, false)
      && s'.tasks[i] == Task(s.nextId, n, 1, true, Running, s'.cpus[n].floor, 0, 0, None)
      && s'.owner == s.owner && s'.count == s.count && s'.held == s.held
  {
    hide Floor;
  }

  lemma StartStruct(s: State, i: nat)
    requires Struct(s) && i < |s.tasks| && s.tasks[i].state == Unused && 0 < s.nextId
    ensures Struct(Started(s, i))
  {
    hide Started;
    StartedIs(s, i);
    var s', n := Started(s, i), |s.cpus|;
    forall j | 0 <= j < |s'.tasks|
      ensures TaskOk(s', s'.tasks[j], j)
    {
      assert TaskOk(s, s.tasks[j], j);
    }
    forall c | 0 <= c < |s'.cpus|
      ensures CpuOk(s', c)
    {
      if c < n {
        assert CpuOk(s, c);
      }
    }
    forall j, k | 0 <= j < |s'.tasks| && 0 <= k < |s'.tasks| && SameId(s'.tasks[j], s'.tasks[k])
      ensures j == k
    {
      assert TaskOk(s, s.tasks[j], j) && TaskOk(s, s.tasks[k], k);
      assert j != i && k != i ==> SameId(s.tasks[j], s.tasks[k]);
    }
  }

  lemma StartKeeps(s: State, i: nat)
    requires Inv(s) && i < |s.tasks| && s.tasks[i].state == Unused && 0 < s.nextId
    ensures Inv(Started(s, i))
  {
    hide Started, Delta, Allowed;
    StartStruct(s, i);
    StartedIs(s, i);
    var s', n := Started(s, i), |s.cpus|;
    forall j | 0 <= j < |s'.tasks|
      ensures WaitOk(s', s'.tasks[j], None) && (j != i ==> s'.tasks[j].cpu < n)
    {
      assert WaitOk(s, s.tasks[j], None);
      TaskCpu(s, j);
    }
    forall c | 0 <= c < |s'.cpus|
      ensures TurnOk(s', c)
    {
      if c < n {
        assert TurnOk(s, c) && CpuOk(s, c);
      }
    }
    assert HeldOk(s');
    assert PendingOk(s');
    assert FairOk(s', None);
  }

  /** Owners and counts changed, tasks and CPUs not. */
  lemma TablesKept(s: State, s': State, except: Option<Obj>)
    requires Inv(s) && s'.tasks == s.tasks && s'.cpus == s.cpus && s'.nextId == s.nextId && HeldOk(s') && WaitsOk(s', except)
    ensures InvBut(s', except, None)
  {
    hide HeldOk, WaitsOk, Delta, Allowed;
    forall i | 0 <= i < |s'.tasks|
      ensures TaskOk(s', s'.tasks[i], i)
    {
      assert TaskOk(s, s.tasks[i], i);
    }
    forall c | 0 <= c < |s'.cpus|
      ensures CpuOk(s', c) && TurnOk(s', c)
    {
      assert CpuOk(s, c) && TurnOk(s, c);
    }
  }

  /** A free mutex is taken. */
  lemma TakeMutexKeeps(s: State, m: nat, id: nat)
    requires Inv(s) && Owner(s, m) == 0 && id != 0
    ensures Inv(s.(owner := s.owner[m := id], held := s.held + {(m, id)}))
  {
    hide Struct, PendingOk, FairOk;
    var s' := s.(owner := s.owner[m := id], held := s.held + {(m, id)});
    forall i | 0 <= i < |s'.tasks|
      ensures WaitOk(s', s'.tasks[i], None)
    {
      assert WaitOk(s, s.tasks[i], None);
    }
    TablesKept(s, s', None);
  }

  lemma UnlockKeeps(s: State, i: nat, m: nat)
    requires Inv(s) && i < |s.tasks|
    ensures Bound(s) && Inv(Unlocked(s, i, m).0)
  {
    hide InvBut, WakeFrom;
    InvBound(s, None, None);
    var me := s.tasks[i].id;
    if Owner(s, m) != 0 && Owner(s, m) == me {
      var s1 := s.(owner := s.owner[m := 0], held := s.held - {(m, me)});
      FreeMutexKeeps(s, m, me);
      InvBound(s1, Some(Mutex(m)), None);
      WakeKeeps(s1, Mutex(m), 0);
      WakeLength(s1, Mutex(m), 0);
      NoneLeft(WakeFrom(s1, Mutex(m), 0), Mutex(m));
    }
  }

  lemma WakeLength(s: State, o: Obj, i: nat)
    requires i <= |s.tasks| && Bound(s) && InvBut(s, Some(o), None) && NoneWaits(s, o, i)
    ensures |WakeFrom(s, o, i).tasks| == |s.tasks|
  {
    hide InvBut, WakeFrom;
    WakeKeeps(s, o, i);
  }

  lemma FreeMutexKeeps(s: State, m: nat, id: nat)
    requires Inv(s) && id != 0 && Owner(s, m) == id
    ensures InvBut(s.(owner := s.owner[m := 0], held := s.held - {(m, id)}), Some(Mutex(m)), None)
  {
    hide Struct, PendingOk, FairOk;
    var s' := s.(owner := s.owner[m := 0], held := s.held - {(m, id)});
    forall i | 0 <= i < |s'.tasks|
      ensures WaitOk(s', s'.tasks[i], Some(Mutex(m)))
    {
      assert WaitOk(s, s.tasks[i], None);
    }
    TablesKept(s, s', Some(Mutex(m)));
  }

  /** A positive count is taken from. */
  lemma TakeCountKeeps(s: State, k: nat)
    requires Inv(s) && Count(s, k) != 0
    ensures Inv(s.(count := s.count[k := Count(s, k) - 1]))
  {
    hide Struct, PendingOk, FairOk;
    var s' := s.(count := s.count[k := Count(s, k) - 1]);
    forall i | 0 <= i < |s'.tasks|
      ensures WaitOk(s', s'.tasks[i], None)
    {
      assert WaitOk(s, s.tasks[i], None);
    }
    TablesKept(s, s', None);
  }

  lemma PostKeeps(s: State, k: nat)
    requires Inv(s)
    ensures Bound(s) && Inv(Posted(s, k))
  {
    hide InvBut, WakeFrom;
    InvBound(s, None, None);
    var n := Count(s, k);
    var s1 := if n != SEM_MAX then s.(count := s.count[k := n + 1]) else s;
    CountUpKeeps(s, k, s1);
    InvBound(s1, Some(Semaphore(k)), None);
    WakeKeeps(s1, Semaphore(k), 0);
    WakeLength(s1, Semaphore(k), 0);
    NoneLeft(WakeFrom(s1, Semaphore(k), 0), Semaphore(k));
  }

  lemma CountUpKeeps(s: State, k: nat, s1: State)
    requires Inv(s) && s1 == if Count(s, k) != SEM_MAX then s.(count := s.count[k := Count(s, k) + 1]) else s
    ensures InvBut(s1, Some(Semaphore(k)), None)
  {
    hide Struct, PendingOk, FairOk;
    forall i | 0 <= i < |s1.tasks|
      ensures WaitOk(s1, s1.tasks[i], Some(Semaphore(k)))
    {
      assert WaitOk(s, s.tasks[i], None);
    }
    TablesKept(s, s1, Some(Semaphore(k)));
  }

  /** k_sem_init on a semaphore that nobody waits for. */
  lemma InitKeeps(s: State, k: nat, n: nat)
    requires Inv(s) && NoneWaits(s, Semaphore(k), |s.tasks|)
    ensures Inv(s.(count := s.count[k := n]))
  {
    hide Struct, PendingOk, FairOk;
    var s' := s.(count := s.count[k := n]);
    forall i | 0 <= i < |s'.tasks|
      ensures WaitOk(s', s'.tasks[i], None)
    {
      assert WaitOk(s, s.tasks[i], None);
    }
    TablesKept(s, s', None);
  }
}
