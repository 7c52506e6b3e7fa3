/**
 Runs of the scheduler: any interleaving of critical sections on any CPUs. No
 wakeup is lost, a mutex has one holder, the floor of a CPU never goes down, and
 two tasks that compete for a CPU stay within eight ticks of each other,
 exactly when neither starts in the middle of an overrun turn.
 */
module SchedRuns {
  import opened Basics
  import opened Sched
  import opened SchedInvariant

  datatype Event =
    | Tick(c: nat, now: nat)
    | Yield(c: nat, now: nat)
    | Create(i: nat, cpu: nat, weight: nat)
    | Start(i: nat)
    | Exit(c: nat)
    | Reap(i: nat)
    | Sleep(c: nat, wake: nat)
    | TryLock(c: nat, m: nat)
    | Lock(c: nat, m: nat)
    | Unlock(c: nat, m: nat)
    | TryTake(k: nat)
    | Take(c: nat, k: nat)
    | Post(k: nat)
    | Init(k: nat, n: nat)
    | Disable(c: nat)
    | Enable(c: nat)

  predicate OnCpu(s: State, c: nat) { c < |s.cpus| && s.cpus[c].current < |s.tasks| && s.cpus[c].idle < |s.tasks| }

  function Current(s: State, c: nat): Task
    requires OnCpu(s, c)
  {
    s.tasks[s.cpus[c].current]
  }

  /** Code of a task other than the idle one is executing on the CPU. */
  predicate InTask(s: State, c: nat) { OnCpu(s, c) && Current(s, c).state == Running && !Current(s, c).idle }

  /** The 32-bit counter of task ids has not come round to zero. */
  predicate IdLeft(s: State) { 0 < s.nextId < 0x1_0000_0000 }

  ghost predicate Enabled(s: State, e: Event) {
    match e
    case Tick(c, _) => OnCpu(s, c)
    case Yield(c, _) => OnCpu(s, c)
    case Create(i, cpu, weight) =>
      i < |s.tasks| && s.tasks[i].state == Unused && cpu < |s.cpus| && 1 <= weight <= 4096 && IdLeft(s)
    case Start(i) => i < |s.tasks| && s.tasks[i].state == Unused && IdLeft(s)
    case Exit(c) => InTask(s, c) && Current(s, c).id != 1
    case Reap(i) => i < |s.tasks| && s.tasks[i].state == Zombie && forall c :: 0 <= c < |s.cpus| ==> s.cpus[c].current != i
    case Sleep(c, _) => InTask(s, c)
    case TryLock(c, _) => OnCpu(s, c)
    case Lock(c, _) => InTask(s, c)
    case Unlock(c, _) => OnCpu(s, c)
    case TryTake(_) => true
    case Take(c, _) => InTask(s, c)
    case Post(_) => true
    case Init(k, _) => NoneWaits(s, Semaphore(k), |s.tasks|)
    case Disable(c) => OnCpu(s, c)
    case Enable(c) => OnCpu(s, c)
  }

  function WithDepth(s: State, c: nat, up: bool): State
    requires OnCpu(s, c)
  {
    var t := Current(s, c);
    SetTask(s, s.cpus[c].current, t.(depth := if up then t.depth + 1 else if t.depth > 0 then t.depth - 1 else 0))
  }

  ghost function Next(s: State, e: Event): State
    requires Bound(s) && Enabled(s, e)
  {
    match e
    case Tick(c, now) => Schedule(s, c, false, now)
    case Yield(c, now) => Schedule(s, c, true, now)
    case Create(i, cpu, weight) => Created(s, i, cpu, weight)
    case Start(i) => Started(s, i)
    case Exit(c) => Exited(s, s.cpus[c].current)
    case Reap(i) => SetTask(s, i, NO_TASK)
    case Sleep(c, wake) => Slept(s, s.cpus[c].current, wake)
    case TryLock(c, m) => TryLocked(s, s.cpus[c].current, m).0
    case Lock(c, m) => Locked(s, s.cpus[c].current, m).0
    case Unlock(c, m) => Unlocked(s, s.cpus[c].current, m).0
    case TryTake(k) => TryTaken(s, k).0
    case Take(c, k) => Taken(s, s.cpus[c].current, k).0
    case Post(k) => Posted(s, k)
    case Init(k, n) => s.(count := s.count[k := n])
    case Disable(c) => WithDepth(s, c, true)
    case Enable(c) => WithDepth(s, c, false)
  }

  // ---------------------------------------------------------------- every step keeps the invariant

  lemma CurrentId(s: State, c: nat)
    requires Inv(s) && OnCpu(s, c)
    ensures Current(s, c).id != 0
  {
    hide FairOk, WaitsOk, HeldOk, PendingOk;
    assert CpuOk(s, c) && TaskOk(s, Current(s, c), s.cpus[c].current);
  }

  lemma MutexStepKeeps(s: State, c: nat, m: nat)
    requires Inv(s) && OnCpu(s, c)
    ensures Inv(TryLocked(s, s.cpus[c].current, m).0)
    ensures InTask(s, c) ==> Inv(Locked(s, s.cpus[c].current, m).0)
  {
    hide InvBut;
    CurrentId(s, c);
    if Owner(s, m) == 0 {
      TakeMutexKeeps(s, m, Current(s, c).id);
    } else if InTask(s, c) && Owner(s, m) != Current(s, c).id && Current(s, c).depth == 0 {
      LeaveKeeps(s, s.cpus[c].current, Current(s, c).(waits := Some(Mutex(m)), state := Blocked));
    }
  }

  lemma SemaphoreStepKeeps(s: State, c: nat, k: nat)
    requires Inv(s)
    ensures Inv(TryTaken(s, k).0)
    ensures InTask(s, c) ==> Inv(Taken(s, s.cpus[c].current, k).0)
  {
    hide InvBut;
    if Count(s, k) != 0 {
      TakeCountKeeps(s, k);
    } else if InTask(s, c) && Current(s, c).depth == 0 {
      LeaveKeeps(s, s.cpus[c].current, Current(s, c).(waits := Some(Semaphore(k)), state := Blocked));
    }
  }

  lemma LeaveStepKeeps(s: State, c: nat, wake: nat)
    requires Inv(s) && InTask(s, c)
    ensures Inv(Slept(s, s.cpus[c].current, wake)) && Inv(Exited(s, s.cpus[c].current))
  {
    hide InvBut;
    var i, t := s.cpus[c].current, Current(s, c);
    if t.depth == 0 {
      LeaveKeeps(s, i, t.(state := Sleeping, wake := wake));
    }
    LeaveKeeps(s, i, t.(state := Zombie, depth := 0));
  }

  /** The invariant is kept by every critical section on every CPU. */
  lemma StepKeeps(s: State, e: Event)
    requires Inv(s) && 0 < |s.cpus| && Enabled(s, e)
    ensures Bound(s) && Inv(Next(s, e))
  {
    hide InvBut, Schedule, Unlocked, Posted, Created, Started, TryLocked, Locked, TryTaken, Taken, Slept, Exited, NoneWaits;
    InvBound(s, None, None);
    match e
    case Tick(c, now) => ScheduleKeeps(s, c, false, now);
    case Yield(c, now) => ScheduleKeeps(s, c, true, now);
    case Create(i, cpu, weight) => CreateKeeps(s, i, cpu, weight);
    case Start(i) => StartKeeps(s, i);
    case Exit(c) => LeaveStepKeeps(s, c, 0);
    case Reap(i) => ReapKeeps(s, i);
    case Sleep(c, wake) => LeaveStepKeeps(s, c, wake);
    case TryLock(c, m) => MutexStepKeeps(s, c, m);
    case Lock(c, m) => MutexStepKeeps(s, c, m);
    case Unlock(c, m) => UnlockKeeps(s, s.cpus[c].current, m);
    case TryTake(k) => SemaphoreStepKeeps(s, 0, k);
    case Take(c, k) => SemaphoreStepKeeps(s, c, k);
    case Post(k) => PostKeeps(s, k);
    case Init(k, n) => InitKeeps(s, k, n);
    case Disable(c) => DepthKeeps(s, s.cpus[c].current, Current(s, c).depth + 1);
    case Enable(c) => DepthKeeps(s, s.cpus[c].current, if Current(s, c).depth > 0 then Current(s, c).depth - 1 else 0);
  }

  // ---------------------------------------------------------------- runs

  ghost predicate Follows(s: State, es: seq<Event>)
    decreases |es|
  {
    es == [] || (Bound(s) && Enabled(s, es[0]) && Follows(Next(s, es[0]), es[1..]))
  }

  ghost function After(s: State, es: seq<Event>): State
    requires Follows(s, es)
    decreases |es|
  {
    if es == [] then s else After(Next(s, es[0]), es[1..])
  }

  lemma {:induction false} RunKeeps(s: State, es: seq<Event>)
    requires Inv(s) && 0 < |s.cpus| && Follows(s, es)
    ensures Inv(After(s, es)) && |After(s, es).cpus| >= |s.cpus|
    ensures forall c :: 0 <= c < |s.cpus| ==> After(s, es).cpus[c].floor >= s.cpus[c].floor
    decreases |es|
  {
    hide InvBut, Next, Enabled;
    if es != [] {
      StepKeeps(s, es[0]);
      StepFloor(s, es[0]);
      RunKeeps(Next(s, es[0]), es[1..]);
    }
  }

  /** States that runs from boot lead to. */
  ghost predicate Reachable(z: State) { exists es :: Follows(Boot(), es) && After(Boot(), es) == z }

  lemma BootTables()
    ensures var s := Boot();
      && |s.tasks| == MAX_TASKS && s.cpus == [Cpu(0, 1, 0, 0, false)] && s.nextId == 3
      && s.tasks[0] == Task(1, 0, 1024, false, Running, 0, 0, 0, None) && s.tasks[1] == Task(2, 0, 1, true, Ready, 0, 0, 0, None)
      && s.owner == map[] && s.count == map[] && s.held == {}
    ensures forall i :: 2 <= i < |Boot().tasks| ==> Boot().tasks[i] == NO_TASK
  {
  }

  lemma BootStruct()
    ensures Struct(Boot()) && |Boot().cpus| == 1
  {
    BootTables();
    hide Boot;
  }

  lemma BootHolds()
    ensures Inv(Boot()) && |Boot().cpus| == 1
  {
    hide Struct, Boot, Delta;
    BootStruct();
    BootTables();
  }

  lemma ReachableHolds(z: State)
    requires Reachable(z)
    ensures Inv(z) && 0 < |z.cpus|
  {
    hide InvBut, Follows, After;
    var es :| Follows(Boot(), es) && After(Boot(), es) == z;
    BootHolds();
    RunKeeps(Boot(), es);
  }

  /**
   In every state of every run from boot: who is blocked waits for something absent,
   who runs is on its CPU, and a CPU with work waiting for it is told so.
   */
  lemma NoLostWakeup(z: State, i: nat)
    requires Reachable(z) && i < |z.tasks|
    ensures var t := z.tasks[i];
      && (t.state == Blocked ==> t.waits.Some?)
      && (t.state == Blocked && t.waits.value.Mutex? ==> Owner(z, t.waits.value.m) != 0)
      && (t.state == Blocked && t.waits.value.Semaphore? ==> Count(z, t.waits.value.s) == 0)
      && t.cpu < |z.cpus|
      && (t.state == Running ==> z.cpus[t.cpu].current == i)
      && (!t.idle && t.state == Ready ==> z.cpus[t.cpu].pending)
      && (!t.idle && t.state == Sleeping && z.cpus[t.cpu].current != i ==> z.cpus[t.cpu].pending)
  {
    hide Reachable, FairOk, HeldOk;
    ReachableHolds(z);
    assert WaitOk(z, z.tasks[i], None) && TaskOk(z, z.tasks[i], i);
    assert Work(z, z.tasks[i], i) ==> z.cpus[z.tasks[i].cpu].pending;
  }

  /** A mutex is never held by two tasks. */
  lemma OneHolder(z: State, m: nat, a: nat, b: nat)
    requires Reachable(z)
    ensures (m, a) in z.held && (m, b) in z.held ==> a == b
  {
    hide Reachable, FairOk, WaitsOk, PendingOk, Struct;
    ReachableHolds(z);
  }

  // ---------------------------------------------------------------- what a step does to virtual time

  /** Tables keep their sizes, floors do not go down, and the turn of CPU c and its runnable tasks are as they were. */
  ghost predicate Calm(s: State, s': State, c: nat) {
    && |s'.tasks| == |s.tasks| && |s'.cpus| >= |s.cpus|
    && (forall k :: 0 <= k < |s.cpus| ==> s'.cpus[k].floor >= s.cpus[k].floor)
    && (c < |s.cpus| ==> s'.cpus[c].current == s.cpus[c].current && s'.cpus[c].slice == s.cpus[c].slice)
    && (forall i :: 0 <= i < |s.tasks| && Runs(s.tasks[i], c) && Runs(s'.tasks[i], c) ==>
          s'.tasks[i].vruntime == s.tasks[i].vruntime && s'.tasks[i].weight == s.tasks[i].weight)
  }

  lemma RunnersCalm(s: State, s': State, c: nat)
    requires RunnersKept(s, s')
    ensures Calm(s, s', c)
  {
  }

  /** What kernel_schedule on CPU c does. */
  ghost predicate Turned(s: State, s': State, c: nat, forced: bool)
    requires OnCpu(s, c)
  {
    var i := s.cpus[c].current;
    && |s'.tasks| == |s.tasks| && |s'.cpus| == |s.cpus|
    && (forall k :: 0 <= k < |s.cpus| ==> s'.cpus[k].floor >= s.cpus[k].floor)
    && (forall k :: 0 <= k < |s.cpus| && k != c ==> s'.cpus[k].current == s.cpus[k].current && s'.cpus[k].slice == s.cpus[k].slice)
    && (forall j :: 0 <= j < |s.tasks| && s.tasks[j].state != Blocked && s.tasks[j].state != Sleeping ==>
          && s'.tasks[j].weight == s.tasks[j].weight && s'.tasks[j].cpu == s.tasks[j].cpu && s'.tasks[j].depth == s.tasks[j].depth
          && (Runs(s.tasks[j], s.tasks[j].cpu) ==> Runs(s'.tasks[j], s.tasks[j].cpu))
          && s'.tasks[j].vruntime == s.tasks[j].vruntime + if j == i && Pays(s, c, forced) then Delta(s.tasks[j]) else 0)
    && (s'.cpus[c].slice > 0 || (s'.cpus[c].current == i && (s.tasks[i].depth > 0 || s.tasks[i].idle)))
  }

  /** The current task pays for a tick. */
  predicate Pays(s: State, c: nat, forced: bool)
    requires OnCpu(s, c)
  {
    var t := Current(s, c);
    !t.idle && (if forced then t.state == Running && t.depth == 0 else true)
  }

  lemma ChargedIs(s: State, c: nat, forced: bool)
    requires OnCpu(s, c)
    ensures var s1, i := Charged(s, c, forced), s.cpus[c].current;
      && |s1.tasks| == |s.tasks| && |s1.cpus| == |s.cpus| && s1.cpus[c].current == i
      && (forall k :: 0 <= k < |s.cpus| ==> s1.cpus[k].floor == s.cpus[k].floor)
      && (forall k :: 0 <= k < |s.cpus| && k != c ==> s1.cpus[k] == s.cpus[k])
      && (forall j :: 0 <= j < |s.tasks| && j != i ==> s1.tasks[j] == s.tasks[j])
      && s1.tasks[i] == s.tasks[i].(vruntime := s.tasks[i].vruntime + if Pays(s, c, forced) then Delta(s.tasks[i]) else 0)
  {
    hide Delta;
  }

  lemma SwitchedTurn(s: State, c: nat)
    requires InvBut(s, None, Some(c)) && OnCpu(s, c)
    ensures var s' := Switched(s, c, Sleepers(s.tasks, c));
      && |s'.tasks| == |s.tasks| && |s'.cpus| == |s.cpus| && s'.cpus[c].slice > 0 && s'.cpus[c].floor >= s.cpus[c].floor
      && (forall k :: 0 <= k < |s.cpus| && k != c ==> s'.cpus[k] == s.cpus[k])
      && (forall j :: 0 <= j < |s.tasks| ==>
            && s'.tasks[j].vruntime == s.tasks[j].vruntime && s'.tasks[j].weight == s.tasks[j].weight
            && s'.tasks[j].cpu == s.tasks[j].cpu && s'.tasks[j].depth == s.tasks[j].depth
            && (Runs(s.tasks[j], s.tasks[j].cpu) ==> Runs(s'.tasks[j], s.tasks[j].cpu)))
  {
    hide Switched, FairOk, WaitsOk, HeldOk, PendingOk, Chosen, Struct, Sleepers;
    SwitchedIs(s, c, Sleepers(s.tasks, c));
  }

  lemma ScheduleTurns(s: State, c: nat, forced: bool, now: nat)
    requires Inv(s) && OnCpu(s, c) && Bound(s)
    ensures Turned(s, Schedule(s, c, forced, now), c, forced)
      || (!forced && Current(s, c).idle && Schedule(s, c, forced, now) == s)
  {
    hide Charged, WakeSleepers, Switched, InvBut, Unsettled, KeepsRunning, Sleepers, Delta, Pays, RunnersKept;
    if !forced && s.tasks[s.cpus[c].current].idle && !s.cpus[c].pending {
      return;
    }
    var skip := Unsettled(s, c, forced);
    ChargedKeeps(s, c, forced);
    ChargedIs(s, c, forced);
    var s1 := Charged(s, c, forced);
    InvBound(s1, None, skip);
    SleepersKeep(s1, c, now, 0, skip);
    WakeKeepsTables(s1, c, now, 0);
    var s2 := WakeSleepers(s1, c, now, 0);
    WokenTurn(s1, s2);
    InvCpu(s2, None, skip, c);
    if KeepsRunning(s2, c, forced) {
      KeptTurn(s, s1, s2, c, forced);
    } else {
      UnsettledIs(s, c, forced);
      FairSkip(s2, None, skip, c);
      SwitchedTurn(s2, c);
    }
  }

  lemma WokenTurn(s: State, s': State)
    requires RunnersKept(s, s')
    ensures |s'.tasks| == |s.tasks| && |s'.cpus| == |s.cpus|
    ensures forall k :: 0 <= k < |s.cpus| ==>
      s'.cpus[k].floor >= s.cpus[k].floor && s'.cpus[k].current == s.cpus[k].current && s'.cpus[k].slice == s.cpus[k].slice
    ensures forall i :: 0 <= i < |s.tasks| && s.tasks[i].state != Blocked && s.tasks[i].state != Sleeping ==> s'.tasks[i] == s.tasks[i]
    ensures forall i :: 0 <= i < |s.tasks| ==> s'.tasks[i].cpu == s.tasks[i].cpu && s'.tasks[i].weight == s.tasks[i].weight
  {
  }

  /** A task that keeps its CPU has slice left, or must not be preempted. */
  lemma KeptTurn(s: State, s1: State, s2: State, c: nat, forced: bool)
    requires OnCpu(s, c) && s1 == Charged(s, c, forced) && RunnersKept(s1, s2) && OnCpu(s2, c) && KeepsRunning(s2, c, forced)
    ensures s2.cpus[c].slice > 0 || s.tasks[s.cpus[c].current].depth > 0
  {
    hide Charged;
    ChargedIs(s, c, forced);
  }

  predicate Schedules(e: Event, c: nat) { (e.Tick? || e.Yield?) && e.c == c }

  lemma WakeCalm(s: State, s1: State, o: Obj, c: nat)
    requires InvBut(s1, Some(o), None) && Bound(s1) && s1.tasks == s.tasks && s1.cpus == s.cpus
    ensures Calm(s, WakeFrom(s1, o, 0), c)
  {
    hide InvBut, WakeFrom, RunnersKept;
    WakeKeeps(s1, o, 0);
    RunnersCalm(s1, WakeFrom(s1, o, 0), c);
  }

  lemma UnlockCalm(s: State, i: nat, m: nat, c: nat)
    requires Inv(s) && i < |s.tasks| && Bound(s)
    ensures Calm(s, Unlocked(s, i, m).0, c)
  {
    hide InvBut, WakeFrom;
    var me := s.tasks[i].id;
    if Owner(s, m) != 0 && Owner(s, m) == me {
      var s1 := s.(owner := s.owner[m := 0], held := s.held - {(m, me)});
      FreeMutexKeeps(s, m, me);
      InvBound(s1, Some(Mutex(m)), None);
      WakeCalm(s, s1, Mutex(m), c);
    }
  }

  lemma PostCalm(s: State, k: nat, c: nat)
    requires Inv(s) && Bound(s)
    ensures Calm(s, Posted(s, k), c)
  {
    hide InvBut, WakeFrom, Calm;
    var s1 := if Count(s, k) != SEM_MAX then s.(count := s.count[k := Count(s, k) + 1]) else s;
    CountUpKeeps(s, k, s1);
    InvBound(s1, Some(Semaphore(k)), None);
    WakeCalm(s, s1, Semaphore(k), c);
  }

  lemma CreateCalm(s: State, i: nat, cpu: nat, weight: nat, c: nat)
    requires Inv(s) && i < |s.tasks| && s.tasks[i].state == Unused && cpu < |s.cpus|
    ensures Calm(s, Created(s, i, cpu, weight), c)
  {
    hide Floor, Struct, WaitsOk, HeldOk, PendingOk, TurnOk;
    FloorIs(s, cpu, None);
  }

  lemma StartCalm(s: State, i: nat, c: nat)
    requires Inv(s) && i < |s.tasks| && s.tasks[i].state == Unused
    ensures Calm(s, Started(s, i), c)
  {
    hide Started, InvBut;
    StartedIs(s, i);
  }

  lemma ScheduleCalm(s: State, c2: nat, forced: bool, now: nat, c: nat)
    requires Inv(s) && OnCpu(s, c2) && Bound(s) && c != c2
    ensures Calm(s, Schedule(s, c2, forced, now), c)
  {
    hide Schedule, WaitsOk, HeldOk, PendingOk, FairOk, Delta, Pays;
    ScheduleTurns(s, c2, forced, now);
    assert CpuOk(s, c2);
  }

  /** A step that does not schedule CPU c leaves the turn of c alone. */
  lemma StepCalm(s: State, e: Event, c: nat)
    requires Inv(s) && Bound(s) && Enabled(s, e) && !Schedules(e, c)
    ensures Calm(s, Next(s, e), c)
  {
    hide InvBut, Schedule, Unlocked, Posted, Created, Started, NoneWaits;
    match e
    case Tick(c2, now) => ScheduleCalm(s, c2, false, now, c);
    case Yield(c2, now) => ScheduleCalm(s, c2, true, now, c);
    case Create(i, cpu, weight) => CreateCalm(s, i, cpu, weight, c);
    case Start(i) => StartCalm(s, i, c);
    case Unlock(c2, m) => UnlockCalm(s, s.cpus[c2].current, m, c);
    case Post(k) => PostCalm(s, k, c);
    case _ =>
  }

  lemma StepFloor(s: State, e: Event)
    requires Inv(s) && Bound(s) && Enabled(s, e)
    ensures |Next(s, e).cpus| >= |s.cpus| && |Next(s, e).tasks| == |s.tasks|
    ensures forall c :: 0 <= c < |s.cpus| ==> Next(s, e).cpus[c].floor >= s.cpus[c].floor
  {
    hide InvBut, Next, Schedule, Enabled, Delta, Pays;
    if e.Tick? || e.Yield? {
      NextSchedules(s, e);
      ScheduleTurns(s, e.c, e.Yield?, e.now);
    } else {
      StepCalm(s, e, 0);
    }
  }

  lemma NextSchedules(s: State, e: Event)
    requires Bound(s) && Enabled(s, e) && (e.Tick? || e.Yield?)
    ensures OnCpu(s, e.c) && Next(s, e) == Schedule(s, e.c, e.Yield?, e.now)
  {
    hide Schedule;
  }

  // ---------------------------------------------------------------- fairness

  /** Two tasks that compete for CPU c and may be preempted. */
  ghost predicate Compete(s: State, a: nat, b: nat, c: nat) {
    && a != b && a < |s.tasks| && b < |s.tasks| && c < |s.cpus|
    && Runs(s.tasks[a], c) && Runs(s.tasks[b], c) && s.tasks[a].depth == 0 && s.tasks[b].depth == 0
  }

  function Wider(a: Task, b: Task): nat { if Delta(a) > Delta(b) then Delta(a) else Delta(b) }

  /** At most eight ticks of the lighter task apart. */
  ghost predicate Close(s: State, a: nat, b: nat)
    requires a < |s.tasks| && b < |s.tasks|
  {
    var x, y := s.tasks[a], s.tasks[b];
    x.vruntime <= y.vruntime + 8 * Wider(x, y) && y.vruntime <= x.vruntime + 8 * Wider(x, y)
  }

  /** If a's turn is used up and it has not been preempted yet, one more tick must not take it too far. */
  ghost predicate SettledFor(s: State, a: nat, b: nat, c: nat)
    requires a < |s.tasks| && b < |s.tasks| && c < |s.cpus|
  {
    s.cpus[c].current == a && s.cpus[c].slice == 0 ==>
      s.tasks[a].vruntime + Delta(s.tasks[a]) <= s.tasks[b].vruntime + 8 * Wider(s.tasks[a], s.tasks[b])
  }

  ghost predicate Settled(s: State, a: nat, b: nat, c: nat)
    requires a < |s.tasks| && b < |s.tasks| && c < |s.cpus|
  {
    SettledFor(s, a, b, c) && SettledFor(s, b, a, c)
  }

  lemma SameWider(s: State, s': State, a: nat, b: nat)
    requires a < |s.tasks| && b < |s.tasks| && |s'.tasks| == |s.tasks|
    requires s'.tasks[a].weight == s.tasks[a].weight && s'.tasks[b].weight == s.tasks[b].weight
    ensures Wider(s'.tasks[a], s'.tasks[b]) == Wider(s.tasks[a], s.tasks[b]) == Wider(s.tasks[b], s.tasks[a])
    ensures Delta(s'.tasks[a]) == Delta(s.tasks[a]) <= Wider(s.tasks[a], s.tasks[b])
    ensures Delta(s'.tasks[b]) == Delta(s.tasks[b]) <= Wider(s.tasks[a], s.tasks[b])
    ensures Wider(s'.tasks[b], s'.tasks[a]) == Wider(s.tasks[a], s.tasks[b])
  {
    SameDelta(s'.tasks[a], s.tasks[a]);
    SameDelta(s'.tasks[b], s.tasks[b]);
  }

  lemma CalmClose(s: State, s': State, a: nat, b: nat, c: nat)
    requires Calm(s, s', c) && Compete(s, a, b, c) && Compete(s', a, b, c) && Close(s, a, b) && Settled(s, a, b, c)
    ensures Close(s', a, b) && Settled(s', a, b, c)
  {
    hide Delta, Wider;
    SameWider(s, s', a, b);
  }

  /** One more tick of a, which is within its turn or settled, keeps it close to b. */
  lemma TickClose(s: State, a: nat, b: nat, c: nat)
    requires Inv(s) && Compete(s, a, b, c) && Settled(s, a, b, c) && s.cpus[c].current == a
    ensures s.tasks[a].vruntime + Delta(s.tasks[a]) <= s.tasks[b].vruntime + 8 * Wider(s.tasks[a], s.tasks[b])
  {
    hide Struct, WaitsOk, HeldOk, PendingOk, Delta, Wider, Allowed;
    SameWider(s, s, a, b);
    if s.cpus[c].slice > 0 {
      assert TurnOk(s, c);
      SliceBound(s, c);
      AllowedStep(s.cpus[c].slice, Delta(s.tasks[a]));
      AllowedMost(s.cpus[c].slice - 1, Delta(s.tasks[a]));
      assert s.tasks[b].vruntime >= s.cpus[c].floor;
    }
  }

  lemma SliceBound(s: State, c: nat)
    requires Inv(s) && c < |s.cpus|
    ensures s.cpus[c].slice <= 8
  {
    hide FairOk, WaitsOk, HeldOk, PendingOk;
    assert CpuOk(s, c);
  }

  lemma AllowedMost(slice: nat, d: nat)
    ensures Allowed(slice, d) <= 8 * d
  {
    if slice <= 8 {
      assert (8 - slice) * d + slice * d == 8 * d;
    }
  }

  lemma TurnClose(s: State, s': State, a: nat, b: nat, c: nat, forced: bool)
    requires Inv(s) && OnCpu(s, c) && Turned(s, s', c, forced) && Compete(s, a, b, c) && Compete(s', a, b, c)
    requires Close(s, a, b) && Settled(s, a, b, c)
    ensures Close(s', a, b) && Settled(s', a, b, c)
  {
    hide InvBut, Delta, Wider;
    SameWider(s, s', a, b);
    if s.cpus[c].current == a {
      TickClose(s, a, b, c);
    } else if s.cpus[c].current == b {
      TickClose(s, b, a, c);
    }
  }

  /** A step in which both stay competitors keeps them close. */
  lemma StepClose(s: State, e: Event, a: nat, b: nat, c: nat)
    requires Inv(s) && Bound(s) && Enabled(s, e) && Compete(s, a, b, c) && Compete(Next(s, e), a, b, c)
    requires Close(s, a, b) && Settled(s, a, b, c)
    ensures Close(Next(s, e), a, b) && Settled(Next(s, e), a, b, c)
  {
    hide InvBut, Next, Schedule, Enabled, Close, Settled, Calm, Turned, Pays;
    if Schedules(e, c) {
      NextSchedules(s, e);
      ScheduleTurns(s, c, e.Yield?, e.now);
      if Next(s, e) != s {
        TurnClose(s, Next(s, e), a, b, c, e.Yield?);
      }
    } else {
      StepCalm(s, e, c);
      CalmClose(s, Next(s, e), a, b, c);
    }
  }

  /** Both compete in every state of the run. */
  ghost predicate Competing(s: State, es: seq<Event>, a: nat, b: nat, c: nat)
    requires Follows(s, es)
    decreases |es|
  {
    Compete(s, a, b, c) && (es != [] ==> Competing(Next(s, es[0]), es[1..], a, b, c))
  }

  lemma {:induction false} RunClose(s: State, es: seq<Event>, a: nat, b: nat, c: nat)
    requires Inv(s) && 0 < |s.cpus| && Follows(s, es) && Competing(s, es, a, b, c) && Close(s, a, b) && Settled(s, a, b, c)
    ensures a < |After(s, es).tasks| && b < |After(s, es).tasks| && Close(After(s, es), a, b)
    decreases |es|
  {
    hide InvBut, Next, Enabled, Close, Settled;
    if es != [] {
      StepKeeps(s, es[0]);
      StepFloor(s, es[0]);
      StepClose(s, es[0], a, b, c);
      RunClose(Next(s, es[0]), es[1..], a, b, c);
    }
  }

  /** In every run in which both compete throughout, they stay close. */
  ghost predicate AlwaysClose(s: State, a: nat, b: nat, c: nat) {
    forall es :: Follows(s, es) && Competing(s, es, a, b, c) ==>
      a < |After(s, es).tasks| && b < |After(s, es).tasks| && Close(After(s, es), a, b)
  }

  /** A tick for a task whose turn is used up takes it one tick further and keeps both competing. */
  lemma OverrunTick(s: State, a: nat, b: nat, c: nat)
    requires Inv(s) && Bound(s) && Compete(s, a, b, c) && OnCpu(s, c) && s.cpus[c].current == a
    ensures var z := Schedule(s, c, false, 0);
      |z.tasks| == |s.tasks| && Compete(z, a, b, c) && z.tasks[a].vruntime == s.tasks[a].vruntime + Delta(s.tasks[a]) && z.tasks[b].vruntime == s.tasks[b].vruntime
      && z.tasks[a].weight == s.tasks[a].weight && z.tasks[b].weight == s.tasks[b].weight
  {
    hide InvBut, Schedule, Delta;
    ScheduleTurns(s, c, false, 0);
  }

  lemma UnsettledBreaks(s: State, a: nat, b: nat, c: nat)
    requires Inv(s) && 0 < |s.cpus| && Compete(s, a, b, c) && !SettledFor(s, a, b, c)
    ensures !AlwaysClose(s, a, b, c) && !AlwaysClose(s, b, a, c)
  {
    hide InvBut, Schedule, Delta, Wider;
    CanSchedule(s, c);
    OverrunTick(s, a, b, c);
    var es := [Tick(c, 0)];
    var z := Schedule(s, c, false, 0);
    assert Enabled(s, es[0]) && Next(s, es[0]) == z && es[1..] == [];
    assert Follows(z, []) && After(z, []) == z;
    assert Follows(s, es) && After(s, es) == z;
    assert Competing(z, [], a, b, c) && Competing(z, [], b, a, c);
    assert Competing(s, es, a, b, c) && Competing(s, es, b, a, c);
    SameWider(s, z, a, b);
    assert !Close(z, a, b) && !Close(z, b, a);
  }

  /** Two competitors that are close stay close in every run exactly when neither is about to overrun its turn. */
  lemma FairExactly(s: State, a: nat, b: nat, c: nat)
    requires Inv(s) && 0 < |s.cpus| && Compete(s, a, b, c) && Close(s, a, b)
    ensures AlwaysClose(s, a, b, c) <==> Settled(s, a, b, c)
  {
    hide InvBut, Follows, After, Competing, Close, SettledFor;
    if Settled(s, a, b, c) {
      forall es | Follows(s, es) && Competing(s, es, a, b, c)
        ensures a < |After(s, es).tasks| && b < |After(s, es).tasks| && Close(After(s, es), a, b)
      {
        RunClose(s, es, a, b, c);
      }
    } else if !SettledFor(s, a, b, c) {
      UnsettledBreaks(s, a, b, c);
    } else {
      CompeteSwaps(s, a, b, c);
      UnsettledBreaks(s, b, a, c);
    }
  }

  lemma CompeteSwaps(s: State, a: nat, b: nat, c: nat)
    requires Compete(s, a, b, c)
    ensures Compete(s, b, a, c)
  {
  }

  // ---------------------------------------------------------------- a run that overruns

  /**
   The boot task, with one competitor created, has preemption off while n ticks go by.
   Overrun is the state after eight of them, when it has just allowed preemption again.
   */
  function Guarded(n: nat): State {
    var s := Boot();
    s.(tasks := s.tasks[0 := s.tasks[0].(vruntime := 1024 * n, depth := 1)][2 := Task(3, 0, 1024, false, Ready, 0, 0, 0, None)],
       cpus := [Cpu(0, 1, 0, 0, true)], nextId := 4)
  }

  function Overrun(): State {
    var s := Guarded(8);
    s.(tasks := s.tasks[0 := s.tasks[0].(depth := 0)])
  }

  lemma {:induction false} NobodyWakes(s: State, c: nat, now: nat, i: nat)
    requires Bound(s) && i <= |s.tasks| && forall j :: 0 <= j < |s.tasks| ==> s.tasks[j].state != Sleeping
    ensures WakeSleepers(s, c, now, i) == s
    decreases |s.tasks| - i
  {
    if i < |s.tasks| {
      NobodyWakes(s, c, now, i + 1);
    }
  }

  lemma GuardedTick(n: nat)
    ensures Bound(Guarded(n)) && OnCpu(Guarded(n), 0) && Schedule(Guarded(n), 0, false, 0) == Guarded(n + 1)
  {
    hide WakeSleepers, Switched;
    var s := Guarded(n);
    assert Delta(s.tasks[0]) == 1024;
    var s1 := Charged(s, 0, false);
    assert s1.tasks == Guarded(n + 1).tasks;
    assert s1.cpus == s.cpus;
    NobodyWakes(s1, 0, 0, 0);
  }

  function Ticks(n: nat): seq<Event> { if n == 0 then [Enable(0)] else [Tick(0, 0)] + Ticks(n - 1) }

  lemma {:induction false} GuardedRun(n: nat)
    requires n <= 8
    ensures Follows(Guarded(8 - n), Ticks(n)) && After(Guarded(8 - n), Ticks(n)) == Overrun()
  {
    hide Schedule, Guarded, Overrun, Bound;
    GuardedTick(8 - n);
    var s, es := Guarded(8 - n), Ticks(n);
    if n == 0 {
      GuardedEnds();
      assert es[1..] == [];
      FollowsOne(s, es);
    } else {
      GuardedRun(n - 1);
      assert es[1..] == Ticks(n - 1);
      FollowsOne(s, es);
    }
  }

  lemma GuardedEnds()
    ensures OnCpu(Guarded(8), 0) && WithDepth(Guarded(8), 0, false) == Overrun()
  {
  }

  lemma FollowsOne(s: State, es: seq<Event>)
    requires es != [] && Bound(s) && Enabled(s, es[0]) && Follows(Next(s, es[0]), es[1..])
    ensures Follows(s, es) && After(s, es) == After(Next(s, es[0]), es[1..])
  {
    hide Bound, Enabled, Next;
  }

  /** Create a competitor, switch preemption off, eight ticks, switch it on. */
  function OverrunEvents(): seq<Event> { [Create(2, 0, 1024), Disable(0)] + Ticks(8) }

  lemma BootFloor()
    ensures Floor(Boot(), 0) == 0
  {
    hide Boot, Floor, Struct;
    BootHolds();
    BootTables();
    FloorIs(Boot(), 0, None);
    assert Least(Boot().tasks, 0, 0);
  }

  lemma Competitor()
    ensures var c := Created(Boot(), 2, 0, 1024);
      && c.cpus == [Cpu(0, 1, 0, 0, true)] && c.nextId == 4 && c.owner == map[] && c.count == map[] && c.held == {}
      && c.tasks == Boot().tasks[2 := Task(3, 0, 1024, false, Ready, 0, 0, 0, None)]
  {
    hide Floor;
    BootFloor();
    BootTables();
    hide Boot;
  }

  lemma GuardedBegins()
    ensures var s := Boot();
      && Bound(s) && Enabled(s, Create(2, 0, 1024))
      && var c := Next(s, Create(2, 0, 1024));
      && Bound(c) && Enabled(c, Disable(0)) && Next(c, Disable(0)) == Guarded(0)
  {
    hide Created, Boot;
    BootTables();
    Competitor();
    var c := Created(Boot(), 2, 0, 1024);
    assert WithDepth(c, 0, true).tasks == Guarded(0).tasks;
  }

  lemma OverrunReached()
    ensures Follows(Boot(), OverrunEvents()) && After(Boot(), OverrunEvents()) == Overrun()
  {
    hide Boot, Overrun, Guarded, Bound, Enabled, Next, Ticks;
    GuardedBegins();
    GuardedRun(8);
    var es := OverrunEvents();
    var s, c := Boot(), Next(Boot(), Create(2, 0, 1024));
    assert es[1..] == [Disable(0)] + Ticks(8) && es[1..][1..] == Ticks(8);
    FollowsOne(c, es[1..]);
    FollowsOne(s, es);
  }

  /** The competitors come to a reachable state in which they are close, and then drift further apart. */
  lemma OverrunIsUnfair()
    ensures Follows(Boot(), OverrunEvents()) && After(Boot(), OverrunEvents()) == Overrun() && Reachable(Overrun())
    ensures Compete(Overrun(), 0, 2, 0) && Close(Overrun(), 0, 2) && !AlwaysClose(Overrun(), 0, 2, 0)
  {
    hide Follows, After, AlwaysClose, InvBut;
    OverrunReached();
    ReachableHolds(Overrun());
    var s := Overrun();
    assert Delta(s.tasks[0]) == Delta(s.tasks[2]) == 1024;
    assert !SettledFor(s, 0, 2, 0);
    FairExactly(s, 0, 2, 0);
  }
}
