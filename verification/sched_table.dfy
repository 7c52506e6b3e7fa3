/**
 The scheduler's critical sections as they change the task and CPU tables in
 place, each proved to compute its function of the state.
 */
module SchedTable {
  import opened Basics
  import opened Sched
  import opened SchedInvariant

  lemma OnlyOne(s: State, i: nat)
    requires i < |s.tasks| && s.tasks[i].cpu < |s.cpus|
    ensures |MakeReady(s, i).tasks| == |s.tasks| && MakeReady(s, i).tasks[i].state == Ready
    ensures forall k :: 0 <= k < |s.tasks| && k != i ==> MakeReady(s, i).tasks[k] == s.tasks[k]
  {
  }

  class Scheduler {
    const tasks: array<Task>
    const cpus: array<Cpu>
    var owner: map<nat, nat>
    var count: map<nat, nat>
    var nextId: nat
    ghost var held: set<(nat, nat)>

    /** k_scheduler_init: the boot task takes the first place and CPU 0, and gets an idle task beside it. */
    constructor ()
      ensures View() == Boot() && Fits() && fresh(tasks) && fresh(cpus)
    {
      var ts := new Task[MAX_TASKS](_ => NO_TASK);
      var cs := new Cpu[1](_ => Cpu(0, 0, 0, 0, false));
      ts[0] := Task(1, 0, 1024, false, Running, 0, 0, 0, None);
      ts[1] := Task(2, 0, 1, true, Ready, 0, 0, 0, None);
      cs[0] := cs[0].(idle := 1);
      tasks, cpus := ts, cs;
      owner, count, nextId, held := map[], map[], 3, {};
      new;
      assert tasks[..] == Boot().tasks;
      assert cpus[..] == Boot().cpus;
    }

    ghost function View(): State
      reads this, tasks, cpus
    {
      State(tasks[..], cpus[..], owner, count, nextId, held)
    }

    /** The tables refer to entries that exist. */
    ghost predicate Fits()
      reads this, tasks, cpus
    {
      && Bound(View())
      && forall c :: 0 <= c < cpus.Length ==> cpus[c].current < tasks.Length && cpus[c].idle < tasks.Length
    }

    method CpuFloor(c: nat) returns (floor: nat)
      requires c < cpus.Length
      modifies cpus
      ensures View() == WithFloor(old(View()), c) && floor == cpus[c].floor
    {
      var min: Option<nat> := None;
      var i := 0;
      while i < tasks.Length
        invariant 0 <= i <= tasks.Length && min == MinV(tasks[..], c, i)
      {
        var t := tasks[i];
        if t.cpu == c && !t.idle && (t.state == Ready || t.state == Running) && (min.None? || t.vruntime < min.value) {
          min := Some(t.vruntime);
        }
        i := i + 1;
      }
      if min.Some? && min.value > cpus[c].floor {
        cpus[c] := cpus[c].(floor := min.value);
      }
      assert old(View()).cpus[c].(floor := old(View()).cpus[c].floor) == old(View()).cpus[c];
      assert cpus[..] == old(cpus[..])[c := old(cpus[..])[c].(floor := Floor(old(View()), c))];
      return cpus[c].floor;
    }

    method TaskReady(i: nat)
      requires i < tasks.Length && Fits()
      modifies tasks, cpus
      ensures View() == MakeReady(old(View()), i) && Fits()
    {
      hide Floor;
      var t := tasks[i];
      assert View().tasks[i].cpu < |View().cpus|;
      var floor := CpuFloor(t.cpu);
      if t.vruntime < floor {
        t := t.(vruntime := floor);
      }
      tasks[i] := t.(state := Ready, waits := None);
      cpus[t.cpu] := cpus[t.cpu].(pending := true);
      assert tasks[..] == old(tasks[..])[i := tasks[i]];
      assert cpus[..] == MakeReady(old(View()), i).cpus;
      assert forall k :: 0 <= k < tasks.Length ==> tasks[k].cpu == old(tasks[k]).cpu;
      assert forall k :: 0 <= k < tasks.Length ==> View().tasks[k] == tasks[k];
      assert forall k :: 0 <= k < tasks.Length ==> old(View()).tasks[k] == old(tasks[k]);
    }

    method WakeObject(o: Obj)
      requires Fits()
      modifies tasks, cpus
      ensures View() == WakeFrom(old(View()), o, 0) && Fits()
    {
      hide MakeReady;
      var i := 0;
      while i < tasks.Length
        invariant 0 <= i <= tasks.Length && Fits()
        invariant WakeFrom(View(), o, i) == WakeFrom(old(View()), o, 0)
      {
        if tasks[i].state == Blocked && tasks[i].waits == Some(o) {
          TaskReady(i);
        }
        i := i + 1;
      }
    }

    method MutexTrylock(i: nat, m: nat) returns (r: Result)
      requires i < tasks.Length
      modifies this`owner, this`held
      ensures (View(), r) == TryLocked(old(View()), i, m)
    {
      var me := tasks[i].id;
      var now := if m in owner then owner[m] else 0;
      if now == me {
        return Deadlock;
      }
      if now != 0 {
        return Busy;
      }
      owner, held := owner[m := me], held + {(m, me)};
      return Done;
    }

    /** One turn of k_mutex_lock under the lock. */
    method MutexLock(i: nat, m: nat) returns (r: Result)
      requires i < tasks.Length
      modifies this`owner, this`held, tasks
      ensures (View(), r) == Locked(old(View()), i, m)
    {
      var t := tasks[i];
      var now := if m in owner then owner[m] else 0;
      if now == 0 {
        owner, held := owner[m := t.id], held + {(m, t.id)};
        return Done;
      }
      if now == t.id || t.depth > 0 {
        return Deadlock;
      }
      tasks[i] := t.(waits := Some(Mutex(m)), state := Blocked);
      assert tasks[..] == old(tasks[..])[i := tasks[i]];
      return Waiting;
    }

    method MutexUnlock(i: nat, m: nat) returns (r: Result)
      requires i < tasks.Length && Fits()
      modifies this`owner, this`held, tasks, cpus
      ensures (View(), r) == Unlocked(old(View()), i, m)
    {
      hide WakeFrom;
      var me := tasks[i].id;
      var now := if m in owner then owner[m] else 0;
      if now == 0 || now != me {
        return NotPermitted;
      }
      owner, held := owner[m := 0], held - {(m, me)};
      WakeObject(Mutex(m));
      return Done;
    }

    method SemTrywait(k: nat) returns (r: Result)
      modifies this`count
      ensures (View(), r) == TryTaken(old(View()), k)
    {
      var n := if k in count then count[k] else 0;
      if n == 0 {
        return Again;
      }
      count := count[k := n - 1];
      return Done;
    }

    /** One turn of k_sem_wait under the lock. */
    method SemWait(i: nat, k: nat) returns (r: Result)
      requires i < tasks.Length
      modifies this`count, tasks
      ensures (View(), r) == Taken(old(View()), i, k)
    {
      var t := tasks[i];
      var n := if k in count then count[k] else 0;
      if n != 0 {
        count := count[k := n - 1];
        return Done;
      }
      if t.depth > 0 {
        return Deadlock;
      }
      tasks[i] := t.(waits := Some(Semaphore(k)), state := Blocked);
      assert tasks[..] == old(tasks[..])[i := tasks[i]];
      return Waiting;
    }

    method SemPost(k: nat)
      requires Fits()
      modifies this`count, tasks, cpus
      ensures View() == Posted(old(View()), k)
    {
      hide WakeFrom;
      var n := if k in count then count[k] else 0;
      if n != SEM_MAX {
        count := count[k := n + 1];
      }
      WakeObject(Semaphore(k));
    }

    /** Charge the current task for a tick or a yield. */
    method Charge(c: nat, forced: bool)
      requires c < cpus.Length && Fits()
      modifies tasks, cpus
      ensures View() == Charged(old(View()), c, forced) && Fits()
    {
      hide Delta;
      var i := cpus[c].current;
      var t := tasks[i];
      if forced && t.state == Running && !t.idle && t.depth == 0 {
        tasks[i] := t.(vruntime := t.vruntime + Delta(t));
      }
      if !forced {
        if !t.idle {
          tasks[i] := t.(vruntime := t.vruntime + Delta(t));
        }
        if cpus[c].slice > 0 {
          cpus[c] := cpus[c].(slice := cpus[c].slice - 1);
        }
      }
      assert tasks[..] == Charged(old(View()), c, forced).tasks;
      assert cpus[..] == Charged(old(View()), c, forced).cpus;
      assert forall k :: 0 <= k < tasks.Length ==> View().tasks[k] == tasks[k] && old(View()).tasks[k] == old(tasks[k]);
    }

    /** Wake the sleepers of a CPU whose time has come; tell whether others still sleep. */
    method WakeDue(c: nat, now: nat) returns (sleepers: bool)
      requires Fits()
      modifies tasks, cpus
      ensures View() == WakeSleepers(old(View()), c, now, 0) && Fits() && sleepers == Sleepers(tasks[..], c)
    {
      hide MakeReady;
      sleepers := false;
      var i := 0;
      while i < tasks.Length
        invariant 0 <= i <= tasks.Length && Fits()
        invariant WakeSleepers(View(), c, now, i) == WakeSleepers(old(View()), c, now, 0)
        invariant sleepers <==> exists k :: 0 <= k < i && Sleeper(tasks[k], c)
      {
        if tasks[i].cpu == c && tasks[i].state == Sleeping {
          if now >= tasks[i].wake {
            ghost var before := tasks[..];
            OnlyOne(View(), i);
            TaskReady(i);
            assert forall k :: 0 <= k < i ==> tasks[k] == View().tasks[k] == before[k];
            assert !Sleeper(View().tasks[i], c);
          } else {
            assert Sleeper(tasks[i], c);
            sleepers := true;
          }
        }
        i := i + 1;
      }
      assert forall k :: 0 <= k < tasks.Length ==> tasks[..][k] == tasks[k];
    }

    /** Put the current task back, choose the next one and give it its slice. */
    method Switch(c: nat, sleepers: bool)
      requires c < cpus.Length && Fits()
      modifies tasks, cpus
      ensures View() == Switched(old(View()), c, sleepers)
    {
      hide Slice, Floor;
      var i := cpus[c].current;
      if tasks[i].state == Running {
        tasks[i] := tasks[i].(state := Ready);
      }
      ghost var put := PutBack(old(View()), c);
      assert tasks[..] == put;
      var best: Option<nat> := None;
      var weights, k := 0, 0;
      while k < tasks.Length
        invariant 0 <= k <= tasks.Length && best == Best(put, c, k) && weights == Weights(put, c, k)
      {
        var t := tasks[k];
        assert t == put[k];
        if t.cpu == c && t.state == Ready && !t.idle {
          weights := weights + t.weight;
          if best.None? || t.vruntime < tasks[best.value].vruntime
            || (t.vruntime == tasks[best.value].vruntime && t.id < tasks[best.value].id) {
            best := Some(k);
          }
        }
        k := k + 1;
      }
      var j := if best.Some? then best.value else cpus[c].idle;
      var slice := Slice(tasks[j].weight, weights);
      cpus[c] := cpus[c].(pending := !tasks[j].idle || sleepers);
      tasks[j] := tasks[j].(state := Running);
      assert tasks[..] == put[j := tasks[j]];
      assert cpus[..] == old(cpus[..])[c := cpus[c]];
      ghost var mid := View();
      var floor := CpuFloor(c);
      ghost var floored := View();
      cpus[c] := cpus[c].(current := j, slice := slice);
      assert cpus[..] == floored.cpus[c := cpus[c]];
    }

    /** kernel_schedule. */
    method Reschedule(c: nat, forced: bool, now: nat)
      requires c < cpus.Length && Fits()
      modifies tasks, cpus
      ensures View() == Schedule(old(View()), c, forced, now)
    {
      hide Charged, WakeSleepers, Switched, Sleepers;
      if !forced && tasks[cpus[c].current].idle && !cpus[c].pending {
        return;
      }
      ghost var s0 := View();
      Charge(c, forced);
      WakeKeepsTables(View(), c, now, 0);
      var sleepers := WakeDue(c, now);
      var t := tasks[cpus[c].current];
      assert View().tasks[cpus[c].current] == t;
      if t.state == Running && (t.depth > 0 || (!forced && cpus[c].slice > 0 && !t.idle)) {
        return;
      }
      Switch(c, sleepers);
    }

    /** new_task: the first free place; memory says whether there are pages for its stack. */
    method NewTask(cpu: nat, weight: nat, memory: bool) returns (place: Option<nat>)
      requires cpu < cpus.Length
      modifies this`nextId, tasks, cpus
      ensures place.None? ==> View() == old(View()) && (!memory || forall i :: 0 <= i < tasks.Length ==> tasks[i].state != Unused)
      ensures place.Some? ==> memory && place.value < tasks.Length && old(tasks[place.value]).state == Unused
      ensures place.Some? ==> forall k :: 0 <= k < place.value ==> old(tasks[k]).state != Unused
      ensures place.Some? ==> View() == Created(old(View()), place.value, cpu, weight)
    {
      hide Floor;
      var i := 0;
      while i < tasks.Length && tasks[i].state != Unused
        invariant 0 <= i <= tasks.Length && forall k :: 0 <= k < i ==> tasks[k].state != Unused
      {
        i := i + 1;
      }
      if i == tasks.Length || !memory {
        return None;
      }
      var floor := CpuFloor(cpu);
      tasks[i] := Task(nextId, cpu, weight, false, Ready, floor, 0, 0, None);
      cpus[cpu] := cpus[cpu].(pending := true);
      nextId := nextId + 1;
      assert tasks[..] == old(tasks[..])[i := tasks[i]];
      assert cpus[..] == Created(old(View()), i, cpu, weight).cpus;
      return Some(i);
    }
  }
}
