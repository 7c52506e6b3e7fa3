/**
 The scheduler's state and its critical sections as functions of it: one task
 table and one CPU table, changed only under the scheduler lock, so that every
 critical section on any CPU is one atomic step.
 */
module Sched {
  import opened Basics

  datatype Obj = Mutex(m: nat) | Semaphore(s: nat)

  datatype TaskState = Unused | Ready | Running | Sleeping | Blocked | Zombie

  datatype Task = Task(id: nat, cpu: nat, weight: nat, idle: bool, state: TaskState, vruntime: nat,
                       depth: nat, wake: nat, waits: Option<Obj>)

  /** current and idle are places in the task table. */
  datatype Cpu = Cpu(current: nat, idle: nat, slice: nat, floor: nat, pending: bool)

  /** held records which tasks were told that they own which mutexes. */
  datatype State = State(tasks: seq<Task>, cpus: seq<Cpu>, owner: map<nat, nat>, count: map<nat, nat>,
                         nextId: nat, held: set<(nat, nat)>)

  const NO_TASK: Task := Task(0, 0, 0, false, Unused, 0, 0, 0, None)
  const SEM_MAX: nat := 0xffff_ffff

  function Owner(s: State, m: nat): nat { if m in s.owner then s.owner[m] else 0 }
  function Count(s: State, k: nat): nat { if k in s.count then s.count[k] else 0 }

  predicate Runs(t: Task, c: nat) { t.cpu == c && !t.idle && (t.state == Ready || t.state == Running) }

  /** Virtual time of one tick. */
  function Delta(t: Task): nat { if t.weight == 0 then 0 else (0x10_0000 + t.weight - 1) / t.weight }

  // ---------------------------------------------------------------- cpu_floor and task_ready

  /** The least virtual time of the runnable tasks of a CPU among the first n. */
  function MinV(tasks: seq<Task>, c: nat, n: nat): Option<nat>
    requires n <= |tasks|
  {
    if n == 0 then None
    else
      var rest, t := MinV(tasks, c, n - 1), tasks[n - 1];
      if Runs(t, c) && (rest.None? || t.vruntime < rest.value) then Some(t.vruntime) else rest
  }

  function Floor(s: State, c: nat): nat
    requires c < |s.cpus|
  {
    var min := MinV(s.tasks, c, |s.tasks|);
    if min.Some? && min.value > s.cpus[c].floor then min.value else s.cpus[c].floor
  }

  function WithFloor(s: State, c: nat): State
    requires c < |s.cpus|
  {
    s.(cpus := s.cpus[c := s.cpus[c].(floor := Floor(s, c))])
  }

  function MakeReady(s: State, i: nat): State
    requires i < |s.tasks| && s.tasks[i].cpu < |s.cpus|
  {
    var t := s.tasks[i];
    var f := Floor(s, t.cpu);
    s.(tasks := s.tasks[i := t.(vruntime := if t.vruntime < f then f else t.vruntime, state := Ready, waits := None)],
       cpus := s.cpus[t.cpu := s.cpus[t.cpu].(floor := f, pending := true)])
  }

  predicate Bound(s: State) { forall i :: 0 <= i < |s.tasks| ==> s.tasks[i].cpu < |s.cpus| }

  /** wake_object from place i on. */
  function WakeFrom(s: State, o: Obj, i: nat): State
    requires i <= |s.tasks| && Bound(s)
    decreases |s.tasks| - i
  {
    if i == |s.tasks| then s
    else if s.tasks[i].state == Blocked && s.tasks[i].waits == Some(o) then WakeFrom(MakeReady(s, i), o, i + 1)
    else WakeFrom(s, o, i + 1)
  }

  // ---------------------------------------------------------------- kernel_schedule

  /** The sleepers of a CPU whose time has come, from place i on. */
  function WakeSleepers(s: State, c: nat, now: nat, i: nat): State
    requires i <= |s.tasks| && Bound(s)
    decreases |s.tasks| - i
  {
    if i == |s.tasks| then s
    else if s.tasks[i].cpu == c && s.tasks[i].state == Sleeping && now >= s.tasks[i].wake then
      WakeSleepers(MakeReady(s, i), c, now, i + 1)
    else WakeSleepers(s, c, now, i + 1)
  }

  predicate Sleeper(t: Task, c: nat) { t.cpu == c && t.state == Sleeping }

  predicate Sleepers(tasks: seq<Task>, c: nat) { exists i :: 0 <= i < |tasks| && Sleeper(tasks[i], c) }

  predicate Candidate(t: Task, c: nat) { t.cpu == c && t.state == Ready && !t.idle }

  predicate Before(a: Task, b: Task) { a.vruntime < b.vruntime || (a.vruntime == b.vruntime && a.id < b.id) }

  /** The place of the best ready task among the first n. */
  function Best(tasks: seq<Task>, c: nat, n: nat): (r: Option<nat>)
    requires n <= |tasks|
    ensures r.Some? ==> r.value < n
  {
    if n == 0 then None
    else
      var rest := Best(tasks, c, n - 1);
      if Candidate(tasks[n - 1], c) && (rest.None? || Before(tasks[n - 1], tasks[rest.value])) then Some(n - 1) else rest
  }

  function Weights(tasks: seq<Task>, c: nat, n: nat): nat
    requires n <= |tasks|
  {
    if n == 0 then 0
    else Weights(tasks, c, n - 1) + if Candidate(tasks[n - 1], c) then tasks[n - 1].weight else 0
  }

  function Slice(weight: nat, weights: nat): (r: nat)
    ensures 1 <= r <= 8
  {
    var x := if weights == 0 then 1 else (8 * weight + weights - 1) / weights;
    if x > 8 then 8 else if x == 0 then 1 else x
  }

  /** Account for a tick or a yield of the current task. */
  function Charged(s: State, c: nat, forced: bool): State
    requires c < |s.cpus| && s.cpus[c].current < |s.tasks|
  {
    var i := s.cpus[c].current;
    var t := s.tasks[i];
    var pays := !t.idle && (if forced then t.state == Running && t.depth == 0 else true);
    var s1 := if pays then s.(tasks := s.tasks[i := t.(vruntime := t.vruntime + Delta(t))]) else s;
    if !forced && s.cpus[c].slice > 0 then s1.(cpus := s1.cpus[c := s1.cpus[c].(slice := s1.cpus[c].slice - 1)]) else s1
  }

  predicate KeepsRunning(s: State, c: nat, forced: bool)
    requires c < |s.cpus| && s.cpus[c].current < |s.tasks|
  {
    var t := s.tasks[s.cpus[c].current];
    t.state == Running && (t.depth > 0 || (!forced && s.cpus[c].slice > 0 && !t.idle))
  }

  /** Put the current task back and choose the next one. */
  function Switched(s: State, c: nat, sleepers: bool): State
    requires c < |s.cpus| && s.cpus[c].current < |s.tasks| && s.cpus[c].idle < |s.tasks|
  {
    var i := s.cpus[c].current;
    var tasks := if s.tasks[i].state == Running then s.tasks[i := s.tasks[i].(state := Ready)] else s.tasks;
    var best := Best(tasks, c, |tasks|);
    var j := if best.Some? then best.value else s.cpus[c].idle;
    var slice := Slice(tasks[j].weight, Weights(tasks, c, |tasks|));
    var after := s.(tasks := tasks[j := tasks[j].(state := Running)],
                    cpus := s.cpus[c := s.cpus[c].(pending := !tasks[j].idle || sleepers)]);
    var floored := WithFloor(after, c);
    floored.(cpus := floored.cpus[c := floored.cpus[c].(current := j, slice := slice)])
  }

  function Schedule(s: State, c: nat, forced: bool, now: nat): State
    requires c < |s.cpus| && s.cpus[c].current < |s.tasks| && s.cpus[c].idle < |s.tasks| && Bound(s)
  {
    if !forced && s.tasks[s.cpus[c].current].idle && !s.cpus[c].pending then s
    else
      var woken := WakeSleepers(Charged(s, c, forced), c, now, 0);
      WakeKeepsTables(Charged(s, c, forced), c, now, 0);
      if KeepsRunning(woken, c, forced) then woken else Switched(woken, c, Sleepers(woken.tasks, c))
  }

  lemma {:induction false} WakeKeepsTables(s: State, c: nat, now: nat, i: nat)
    requires i <= |s.tasks| && Bound(s)
    ensures var w := WakeSleepers(s, c, now, i);
      |w.tasks| == |s.tasks| && |w.cpus| == |s.cpus| && Bound(w) && w.owner == s.owner && w.count == s.count && w.held == s.held
      && w.nextId == s.nextId
      && forall k :: 0 <= k < |s.cpus| ==> w.cpus[k].current == s.cpus[k].current && w.cpus[k].idle == s.cpus[k].idle
                                           && w.cpus[k].slice == s.cpus[k].slice
    decreases |s.tasks| - i
  {
    if i < |s.tasks| {
      if s.tasks[i].cpu == c && s.tasks[i].state == Sleeping && now >= s.tasks[i].wake {
        WakeKeepsTables(MakeReady(s, i), c, now, i + 1);
      } else {
        WakeKeepsTables(s, c, now, i + 1);
      }
    }
  }

  // ---------------------------------------------------------------- the other critical sections

  function SetTask(s: State, i: nat, t: Task): State
    requires i < |s.tasks|
  {
    s.(tasks := s.tasks[i := t])
  }

  /** k_sleep, before it yields. */
  function Slept(s: State, i: nat, wake: nat): State
    requires i < |s.tasks|
  {
    if s.tasks[i].depth > 0 then s else SetTask(s, i, s.tasks[i].(state := Sleeping, wake := wake))
  }

  /** k_task_exit, before it yields. */
  function Exited(s: State, i: nat): State
    requires i < |s.tasks|
  {
    SetTask(s, i, s.tasks[i].(state := Zombie, depth := 0))
  }

  /** new_task in place i. */
  function Created(s: State, i: nat, cpu: nat, weight: nat): State
    requires i < |s.tasks| && cpu < |s.cpus|
  {
    var f := Floor(s, cpu);
    s.(tasks := s.tasks[i := Task(s.nextId, cpu, weight, false, Ready, f, 0, 0, None)],
       cpus := s.cpus[cpu := s.cpus[cpu].(floor := f, pending := true)], nextId := s.nextId + 1)
  }

  /** One more CPU comes up, running the idle task made for it in place i. */
  function Started(s: State, i: nat): State
    requires i < |s.tasks|
  {
    var c := |s.cpus|;
    var s1 := s.(cpus := s.cpus + [Cpu(i, i, 0, 0, false)]);
    var f := Floor(s1, c);
    s1.(tasks := s.tasks[i := Task(s.nextId, c, 1, true, Running, f, 0, 0, None)],
        cpus := s.cpus + [Cpu(i, i, 0, f, false)], nextId := s.nextId + 1)
  }

  const MAX_TASKS: nat := 128

  /** What k_scheduler_init leaves: the boot task running on CPU 0, its idle task ready, nothing else. */
  function Boot(): State {
    State([Task(1, 0, 1024, false, Running, 0, 0, 0, None), Task(2, 0, 1, true, Ready, 0, 0, 0, None)]
          + seq(MAX_TASKS - 2, _ => NO_TASK),
          [Cpu(0, 1, 0, 0, false)], map[], map[], 3, {})
  }

  datatype Result = Done | Deadlock | Busy | NotPermitted | Again | Waiting

  /** k_mutex_trylock. */
  function TryLocked(s: State, i: nat, m: nat): (State, Result)
    requires i < |s.tasks|
  {
    var me := s.tasks[i].id;
    if Owner(s, m) == me then (s, Deadlock)
    else if Owner(s, m) != 0 then (s, Busy)
    else (s.(owner := s.owner[m := me], held := s.held + {(m, me)}), Done)
  }

  /** One turn of k_mutex_lock; Waiting yields and tries again. */
  function Locked(s: State, i: nat, m: nat): (State, Result)
    requires i < |s.tasks|
  {
    var t := s.tasks[i];
    if Owner(s, m) == 0 then (s.(owner := s.owner[m := t.id], held := s.held + {(m, t.id)}), Done)
    else if Owner(s, m) == t.id || t.depth > 0 then (s, Deadlock)
    else (SetTask(s, i, t.(waits := Some(Mutex(m)), state := Blocked)), Waiting)
  }

  /** k_mutex_unlock. */
  function Unlocked(s: State, i: nat, m: nat): (State, Result)
    requires i < |s.tasks| && Bound(s)
  {
    var me := s.tasks[i].id;
    if Owner(s, m) == 0 || Owner(s, m) != me then (s, NotPermitted)
    else (WakeFrom(s.(owner := s.owner[m := 0], held := s.held - {(m, me)}), Mutex(m), 0), Done)
  }

  /** k_sem_trywait. */
  function TryTaken(s: State, k: nat): (State, Result) {
    if Count(s, k) == 0 then (s, Again) else (s.(count := s.count[k := Count(s, k) - 1]), Done)
  }

  /** One turn of k_sem_wait. */
  function Taken(s: State, i: nat, k: nat): (State, Result)
    requires i < |s.tasks|
  {
    var t := s.tasks[i];
    if Count(s, k) != 0 then (s.(count := s.count[k := Count(s, k) - 1]), Done)
    else if t.depth > 0 then (s, Deadlock)
    else (SetTask(s, i, t.(waits := Some(Semaphore(k)), state := Blocked)), Waiting)
  }

  /** k_sem_post. */
  function Posted(s: State, k: nat): State
    requires Bound(s)
  {
    var n := Count(s, k);
    WakeFrom(if n != SEM_MAX then s.(count := s.count[k := n + 1]) else s, Semaphore(k), 0)
  }
}
