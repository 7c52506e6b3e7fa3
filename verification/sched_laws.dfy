/**
 What the scheduler has to do, said without the functions that do it: the account of a semaphore and
 of a mutex over any run, whom a post or an unlock wakes, that a waiter then gets through, and what
 one pass of the scheduler does to time, sleepers, the choice of the next task and its turn.
 */
module SchedLaws {
  import opened Basics
  import opened Sched
  import opened SchedInvariant
  import opened SchedRuns

  // ---------------------------------------------------------------- accounts

  /** What the call of an event is told. */
  ghost function Answer(s: State, e: Event): Result
    requires Bound(s) && Enabled(s, e)
  {
    match e
    case TryLock(c, m) => TryLocked(s, s.cpus[c].current, m).1
    case Lock(c, m) => Locked(s, s.cpus[c].current, m).1
    case Unlock(c, m) => Unlocked(s, s.cpus[c].current, m).1
    case TryTake(k) => TryTaken(s, k).1
    case Take(c, k) => Taken(s, s.cpus[c].current, k).1
    case _ => Done
  }

  predicate Takes(e: Event, k: nat) { (e.TryTake? || e.Take?) && e.k == k }

  predicate Locks(e: Event, m: nat) { (e.TryLock? || e.Lock?) && e.m == m }

  /** Units put in and taken out of semaphore k by a run. */
  ghost function Given(s: State, es: seq<Event>, k: nat): nat
    requires Follows(s, es)
    decreases |es|
  {
    if es == [] then 0
    else Given(Next(s, es[0]), es[1..], k) + if es[0] == Post(k) && Count(s, k) != SEM_MAX then 1 else 0
  }

  ghost function Gone(s: State, es: seq<Event>, k: nat): nat
    requires Follows(s, es)
    decreases |es|
  {
    if es == [] then 0
    else Gone(Next(s, es[0]), es[1..], k) + if Takes(es[0], k) && Answer(s, es[0]) == Done then 1 else 0
  }

  predicate NoInit(es: seq<Event>, k: nat) { forall i :: 0 <= i < |es| ==> !(es[i].Init? && es[i].k == k) }

  lemma WakeCounts(s: State, o: Obj)
    requires InvBut(s, Some(o), None) && Bound(s)
    ensures var w := WakeFrom(s, o, 0); w.count == s.count && w.owner == s.owner
  {
    hide InvBut, WakeFrom;
    WakeKeeps(s, o, 0);
  }

  lemma PostCounts(s: State, k: nat)
    requires Inv(s) && Bound(s)
    ensures forall j: nat :: Count(Posted(s, k), j) == Count(s, j) + if j == k && Count(s, k) != SEM_MAX then 1 else 0
    ensures Posted(s, k).owner == s.owner
  {
    hide InvBut, WakeFrom;
    var s1 := if Count(s, k) != SEM_MAX then s.(count := s.count[k := Count(s, k) + 1]) else s;
    CountUpKeeps(s, k, s1);
    InvBound(s1, Some(Semaphore(k)), None);
    WakeCounts(s1, Semaphore(k));
  }

  lemma UnlockCounts(s: State, i: nat, m: nat)
    requires Inv(s) && Bound(s) && i < |s.tasks|
    ensures var (z, r) := Unlocked(s, i, m);
      && z.count == s.count && (r == Done <==> Owner(s, m) != 0 && Owner(s, m) == s.tasks[i].id)
      && forall j: nat :: Owner(z, j) == if j == m && r == Done then 0 else Owner(s, j)
  {
    hide InvBut, WakeFrom;
    var me := s.tasks[i].id;
    if Owner(s, m) != 0 && Owner(s, m) == me {
      var s1 := s.(owner := s.owner[m := 0], held := s.held - {(m, me)});
      FreeMutexKeeps(s, m, me);
      InvBound(s1, Some(Mutex(m)), None);
      WakeCounts(s1, Mutex(m));
    }
  }

  lemma ScheduleCounts(s: State, c: nat, forced: bool, now: nat)
    requires OnCpu(s, c) && Bound(s)
    ensures var z := Schedule(s, c, forced, now); z.count == s.count && z.owner == s.owner
  {
    hide WakeSleepers, Best, Weights, Slice, Delta, Floor, MinV, Sleepers;
    WakeKeepsTables(Charged(s, c, forced), c, now, 0);
  }

  /** The count of semaphore k and the owner of mutex m after a step, from the answer that was given. */
  ghost function CountAfter(s: State, e: Event, k: nat): int
    requires Bound(s) && Enabled(s, e)
  {
    if e.Init? && e.k == k then e.n
    else if e == Post(k) && Count(s, k) != SEM_MAX then Count(s, k) + 1
    else if Takes(e, k) && Answer(s, e) == Done then Count(s, k) - 1 else Count(s, k)
  }

  ghost function OwnerAfter(s: State, e: Event, m: nat): nat
    requires Bound(s) && Enabled(s, e)
  {
    if Locks(e, m) && Answer(s, e) == Done then Current(s, e.c).id
    else if e.Unlock? && e.m == m && Answer(s, e) == Done then 0 else Owner(s, m)
  }

  lemma StepCounts(s: State, e: Event, k: nat)
    requires Inv(s) && 0 < |s.cpus| && Bound(s) && Enabled(s, e)
    ensures Count(Next(s, e), k) == CountAfter(s, e, k)
  {
    hide InvBut, Schedule, Unlocked, Posted, Created, Started, NoneWaits, Bound, Owner;
    match e
    case Tick(c, now) => ScheduleCounts(s, c, false, now);
    case Yield(c, now) => ScheduleCounts(s, c, true, now);
    case Create(i, cpu, weight) => CreateCounts(s, i, cpu, weight);
    case Start(i) => StartCounts(s, i);
    case Unlock(c, m) => UnlockCounts(s, s.cpus[c].current, m);
    case Post(j) => PostCounts(s, j);
    case _ =>
  }

  lemma StepOwners(s: State, e: Event, m: nat)
    requires Inv(s) && 0 < |s.cpus| && Bound(s) && Enabled(s, e)
    ensures Owner(Next(s, e), m) == OwnerAfter(s, e, m)
  {
    hide InvBut, Schedule, Unlocked, Posted, Created, Started, NoneWaits, Bound, Count;
    match e
    case Tick(c, now) => ScheduleCounts(s, c, false, now);
    case Yield(c, now) => ScheduleCounts(s, c, true, now);
    case Create(i, cpu, weight) => CreateCounts(s, i, cpu, weight);
    case Start(i) => StartCounts(s, i);
    case Unlock(c, j) => UnlockCounts(s, s.cpus[c].current, j);
    case Post(k) => PostCounts(s, k);
    case _ =>
  }

  lemma CreateCounts(s: State, i: nat, cpu: nat, weight: nat)
    requires i < |s.tasks| && cpu < |s.cpus|
    ensures Created(s, i, cpu, weight).count == s.count && Created(s, i, cpu, weight).owner == s.owner
  {
    hide Floor;
  }

  lemma StartCounts(s: State, i: nat)
    requires i < |s.tasks|
    ensures Started(s, i).count == s.count && Started(s, i).owner == s.owner
  {
    hide Floor;
  }

  /** Over any run: what was there and what was put in is what is there and what was taken out. */
  lemma {:induction false} SemaphoreAccount(s: State, es: seq<Event>, k: nat)
    requires Inv(s) && 0 < |s.cpus| && Follows(s, es) && NoInit(es, k)
    ensures Count(After(s, es), k) + Gone(s, es, k) == Count(s, k) + Given(s, es, k)
    decreases |es|
  {
    hide InvBut, Next, Enabled, Answer, Count;
    if es != [] {
      StepKeeps(s, es[0]);
      StepFloor(s, es[0]);
      StepCounts(s, es[0], k);
      TakeNeeds(s, es[0], k);
      SemaphoreAccount(Next(s, es[0]), es[1..], k);
    }
  }

  /** A wait is told Done exactly if there is something to take; if not, it fails or the task is blocked on the semaphore. */
  lemma TakeNeeds(s: State, e: Event, k: nat)
    requires Bound(s) && Enabled(s, e)
    ensures Takes(e, k) ==> (Answer(s, e) == Done <==> Count(s, k) > 0)
    ensures Takes(e, k) && Count(s, k) == 0 ==>
      if e.TryTake? then Answer(s, e) == Again && Next(s, e) == s
      else if Current(s, e.c).depth > 0 then Answer(s, e) == Deadlock && Next(s, e) == s
      else
        && Answer(s, e) == Waiting && |Next(s, e).tasks| == |s.tasks|
        && Next(s, e).tasks[s.cpus[e.c].current] == Current(s, e.c).(state := Blocked, waits := Some(Semaphore(k)))
        && forall i :: 0 <= i < |s.tasks| && i != s.cpus[e.c].current ==> Next(s, e).tasks[i] == s.tasks[i]
  {
    hide Bound;
  }

  /** A lock is told Done exactly if nobody has the mutex; if not, it fails or the task is blocked on the mutex. */
  lemma LockNeeds(s: State, e: Event, m: nat)
    requires Inv(s) && Bound(s) && Enabled(s, e)
    ensures Locks(e, m) ==> (Answer(s, e) == Done <==> Owner(s, m) == 0)
    ensures Locks(e, m) && Owner(s, m) != 0 ==>
      if e.TryLock? || Owner(s, m) == Current(s, e.c).id || Current(s, e.c).depth > 0 then
        Next(s, e) == s && Answer(s, e) == if e.TryLock? && Owner(s, m) != Current(s, e.c).id then Busy else Deadlock
      else
        && Answer(s, e) == Waiting && |Next(s, e).tasks| == |s.tasks|
        && Next(s, e).tasks[s.cpus[e.c].current] == Current(s, e.c).(state := Blocked, waits := Some(Mutex(m)))
        && forall i :: 0 <= i < |s.tasks| && i != s.cpus[e.c].current ==> Next(s, e).tasks[i] == s.tasks[i]
  {
    hide Bound, InvBut;
    if Locks(e, m) {
      CurrentId(s, e.c);
    }
  }

  // ---------------------------------------------------------------- waiters get through

  /** After a post, with no other taker, whoever waits for the semaphore next gets through. */
  lemma PostLetsThrough(s: State, es: seq<Event>, k: nat, e: Event)
    requires Inv(s) && 0 < |s.cpus| && Follows(s, [Post(k)] + es) && NoInit(es, k) && Gone(s, [Post(k)] + es, k) == 0
    requires var z := After(s, [Post(k)] + es); Bound(z) && Enabled(z, e) && Takes(e, k)
    ensures Answer(After(s, [Post(k)] + es), e) == Done
  {
    hide InvBut, Next, Enabled, Answer, Follows, After, Gone;
    var all := [Post(k)] + es;
    SemaphoreAccount(s, all, k);
    PostGives(s, es, k);
    TakeNeeds(After(s, all), e, k);
  }

  lemma PostGives(s: State, es: seq<Event>, k: nat)
    requires Follows(s, [Post(k)] + es)
    ensures Given(s, [Post(k)] + es, k) >= if Count(s, k) != SEM_MAX then 1 else 0
  {
    hide Next, Enabled;
    assert ([Post(k)] + es)[0] == Post(k);
  }

  predicate Untouched(es: seq<Event>, m: nat) { forall i :: 0 <= i < |es| ==> !Locks(es[i], m) }

  lemma {:induction false} StaysFree(s: State, es: seq<Event>, m: nat)
    requires Inv(s) && 0 < |s.cpus| && Follows(s, es) && Untouched(es, m) && Owner(s, m) == 0
    ensures Owner(After(s, es), m) == 0
    decreases |es|
  {
    hide InvBut, Next, Enabled, Answer, Owner;
    if es != [] {
      StepKeeps(s, es[0]);
      StepFloor(s, es[0]);
      StepOwners(s, es[0], m);
      StaysFree(Next(s, es[0]), es[1..], m);
    }
  }

  /** After an unlock that succeeds, with no other attempt, the next attempt gets the mutex. */
  lemma UnlockLetsThrough(s: State, c: nat, m: nat, es: seq<Event>, e: Event)
    requires Inv(s) && 0 < |s.cpus| && Bound(s) && Enabled(s, Unlock(c, m)) && Answer(s, Unlock(c, m)) == Done
    requires Follows(Next(s, Unlock(c, m)), es) && Untouched(es, m)
    requires var z := After(Next(s, Unlock(c, m)), es); Bound(z) && Enabled(z, e) && Locks(e, m)
    ensures Answer(After(Next(s, Unlock(c, m)), es), e) == Done
  {
    hide InvBut, Next, Enabled, Answer, Follows, After, Owner;
    var s1 := Next(s, Unlock(c, m));
    StepKeeps(s, Unlock(c, m));
    StepFloor(s, Unlock(c, m));
    StepOwners(s, Unlock(c, m), m);
    StaysFree(s1, es, m);
    RunKeeps(s1, es);
    LockNeeds(After(s1, es), e, m);
  }

  // ---------------------------------------------------------------- who is woken

  /** A task made ready: waiting for nothing, its virtual time raised to the floor of its CPU at most, otherwise as it was. */
  ghost predicate Awake(s: State, z: State, i: nat)
    requires i < |s.tasks| && i < |z.tasks| && s.tasks[i].cpu < |z.cpus|
  {
    var t, u := s.tasks[i], z.tasks[i];
    && u == t.(state := Ready, waits := None, vruntime := u.vruntime) && u.vruntime >= t.vruntime
    && (u.vruntime == t.vruntime || u.vruntime <= z.cpus[t.cpu].floor) && z.cpus[t.cpu].pending
  }

  lemma ReadyAwake(s: State, i: nat)
    requires i < |s.tasks| && s.tasks[i].cpu < |s.cpus|
    ensures Floor(s, s.tasks[i].cpu) >= s.cpus[s.tasks[i].cpu].floor
    ensures var z := MakeReady(s, i);
      && |z.tasks| == |s.tasks| && |z.cpus| == |s.cpus| && Awake(s, z, i)
      && (forall k :: 0 <= k < |s.tasks| && k != i ==> z.tasks[k] == s.tasks[k])
      && (forall c :: 0 <= c < |s.cpus| ==> (s.cpus[c].pending ==> z.cpus[c].pending) && z.cpus[c].floor >= s.cpus[c].floor)
  {
    hide MinV;
  }

  /** Exactly the tasks blocked on an object are woken. */
  lemma {:induction false} WakesExactly(s: State, o: Obj, i: nat)
    requires i <= |s.tasks| && Bound(s)
    ensures var z := WakeFrom(s, o, i);
      && |z.tasks| == |s.tasks| && |z.cpus| == |s.cpus|
      && (forall c :: 0 <= c < |s.cpus| ==> (s.cpus[c].pending ==> z.cpus[c].pending) && z.cpus[c].floor >= s.cpus[c].floor)
      && (forall k :: 0 <= k < |s.tasks| ==>
            if i <= k && s.tasks[k].state == Blocked && s.tasks[k].waits == Some(o) then Awake(s, z, k) else z.tasks[k] == s.tasks[k])
    decreases |s.tasks| - i
  {
    hide MakeReady;
    if i < |s.tasks| {
      if s.tasks[i].state == Blocked && s.tasks[i].waits == Some(o) {
        ReadyAwake(s, i);
        WakesExactly(MakeReady(s, i), o, i + 1);
      } else {
        WakesExactly(s, o, i + 1);
      }
    }
  }

  /** A post and a successful unlock wake exactly those who wait. */
  lemma WakesWaiters(s: State, e: Event)
    requires Bound(s) && Enabled(s, e) && (e.Post? || (e.Unlock? && Answer(s, e) == Done))
    ensures var z, o := Next(s, e), if e.Post? then Semaphore(e.k) else Mutex(e.m);
      && |z.tasks| == |s.tasks| && |z.cpus| == |s.cpus|
      && forall i :: 0 <= i < |s.tasks| ==>
           if s.tasks[i].state == Blocked && s.tasks[i].waits == Some(o) then Awake(s, z, i) else z.tasks[i] == s.tasks[i]
  {
    hide WakeFrom;
    match e
    case Post(k) =>
      var s1 := if Count(s, k) != SEM_MAX then s.(count := s.count[k := Count(s, k) + 1]) else s;
      WakesExactly(s1, Semaphore(k), 0);
    case Unlock(c, m) =>
      var s1 := s.(owner := s.owner[m := 0], held := s.held - {(m, Current(s, c).id)});
      WakesExactly(s1, Mutex(m), 0);
  }

  // ---------------------------------------------------------------- one pass of the scheduler

  /** d is what a tick costs a task of that weight: its share of 2^20, rounded up. */
  predicate Cost(d: nat, weight: nat) { (d - 1) * weight < 0x10_0000 <= d * weight }

  lemma DeltaIs(t: Task)
    requires t.weight > 0
    ensures Cost(Delta(t), t.weight)
  {
    var a := 0x10_0000 + t.weight - 1;
    assert a == Delta(t) * t.weight + a % t.weight;
  }

  /** A sleeper of the CPU whose time has come. */
  predicate Rises(t: Task, c: nat, now: nat) { t.cpu == c && t.state == Sleeping && t.wake <= now }

  lemma {:induction false} RisesExactly(s: State, c: nat, now: nat, i: nat)
    requires i <= |s.tasks| && Bound(s)
    ensures var z := WakeSleepers(s, c, now, i);
      && |z.tasks| == |s.tasks| && |z.cpus| == |s.cpus|
      && (forall k :: 0 <= k < |s.cpus| ==> (s.cpus[k].pending ==> z.cpus[k].pending) && z.cpus[k].floor >= s.cpus[k].floor)
      && (forall k :: 0 <= k < |s.tasks| ==> if i <= k && Rises(s.tasks[k], c, now) then Awake(s, z, k) else z.tasks[k] == s.tasks[k])
    decreases |s.tasks| - i
  {
    hide MakeReady;
    if i < |s.tasks| {
      if s.tasks[i].cpu == c && s.tasks[i].state == Sleeping && now >= s.tasks[i].wake {
        ReadyAwake(s, i);
        RisesExactly(MakeReady(s, i), c, now, i + 1);
      } else {
        RisesExactly(s, c, now, i + 1);
      }
    }
  }

  /** The current task may go on: it must not be preempted, or its turn is not over. */
  predicate GoesOn(s: State, c: nat, forced: bool)
    requires OnCpu(s, c)
  {
    Current(s, c).state == Running && (Current(s, c).depth > 0 || (!forced && s.cpus[c].slice > 1 && !Current(s, c).idle))
  }

  /** Of the tasks of the CPU that could run, the one that does comes first, by virtual time and then by number. */
  ghost predicate FirstRuns(z: State, c: nat)
    requires OnCpu(z, c)
  {
    && Current(z, c).state == Running && Current(z, c).cpu == c
    && forall k :: 0 <= k < |z.tasks| && z.tasks[k].cpu == c && z.tasks[k].state == Ready && !z.tasks[k].idle ==>
         && !Current(z, c).idle
         && (Current(z, c).vruntime < z.tasks[k].vruntime || (Current(z, c).vruntime == z.tasks[k].vruntime && Current(z, c).id <= z.tasks[k].id))
  }

  lemma {:induction false} BestIsFirst(tasks: seq<Task>, c: nat, n: nat)
    requires n <= |tasks|
    ensures forall i :: 0 <= i < n && Candidate(tasks[i], c) ==>
      Best(tasks, c, n).Some? && (Before(tasks[Best(tasks, c, n).value], tasks[i]) || (tasks[Best(tasks, c, n).value].vruntime == tasks[i].vruntime && tasks[Best(tasks, c, n).value].id == tasks[i].id))
    ensures Best(tasks, c, n).Some? ==> Candidate(tasks[Best(tasks, c, n).value], c)
  {
    if n > 0 {
      BestIsFirst(tasks, c, n - 1);
    }
  }

  /** The weights of the CPU's ready tasks. */
  ghost function ReadyWeight(tasks: seq<Task>, c: nat): nat
    decreases |tasks|
  {
    if tasks == [] then 0
    else ReadyWeight(tasks[..|tasks| - 1], c) + if Candidate(tasks[|tasks| - 1], c) then tasks[|tasks| - 1].weight else 0
  }

  lemma {:induction false} WeightsAre(tasks: seq<Task>, c: nat, n: nat)
    requires n <= |tasks|
    ensures Weights(tasks, c, n) == ReadyWeight(tasks[..n], c)
  {
    if n > 0 {
      WeightsAre(tasks, c, n - 1);
      assert tasks[..n][..n - 1] == tasks[..n - 1];
    } else {
      assert tasks[..0] == [];
    }
  }

  /** A turn: the share of eight ticks that the weight has among all, rounded up, at least one. */
  predicate Turn(slice: nat, weight: nat, total: nat) {
    if total == 0 then slice == 1
    else 1 <= slice <= 8 && (slice < 8 ==> 8 * weight <= slice * total) && (slice > 1 ==> (slice - 1) * total < 8 * weight)
  }

  lemma SliceIs(weight: nat, total: nat)
    ensures Turn(Slice(weight, total), weight, total)
  {
    if total > 0 {
      var a := 8 * weight + total - 1;
      var q := a / total;
      assert a == q * total + a % total;
      if q > 8 {
        Multiples(8, q, total);
      }
      assert (q - 1) * total == q * total - total;
    }
  }

  /** What a switch does. */
  lemma SwitchIs(s: State, c: nat, sleepers: bool)
    requires Struct(s) && FairOk(s, Some(c)) && OnCpu(s, c)
    ensures var z, i := Switched(s, c, sleepers), s.cpus[c].current;
      && |z.tasks| == |s.tasks| && |z.cpus| == |s.cpus| && OnCpu(z, c) && FirstRuns(z, c)
      && (forall k :: 0 <= k < |s.tasks| && k != i && k != z.cpus[c].current ==> z.tasks[k] == s.tasks[k])
      && (i != z.cpus[c].current ==> z.tasks[i] == s.tasks[i].(state := if s.tasks[i].state == Running then Ready else s.tasks[i].state))
      && Current(z, c) == s.tasks[z.cpus[c].current].(state := Running)
      && (s.tasks[z.cpus[c].current].state == Ready || (z.cpus[c].current == i && s.tasks[i].state == Running))
      && Turn(z.cpus[c].slice, Current(z, c).weight, ReadyWeight(PutBack(s, c), c))
  {
    hide FairOk, Struct, Best, Weights, Slice, Floor;
    SwitchedIs(s, c, sleepers);
    var tasks, j := PutBack(s, c), Chosen(s, c);
    BestIsFirst(tasks, c, |tasks|);
    WeightsAre(tasks, c, |tasks|);
    assert tasks[..|tasks|] == tasks;
    SliceIs(tasks[j].weight, Weights(tasks, c, |tasks|));
    SwitchSlice(s, c, sleepers);
  }

  lemma SwitchSlice(s: State, c: nat, sleepers: bool)
    requires OnCpu(s, c)
    ensures Switched(s, c, sleepers).cpus[c].slice == Slice(PutBack(s, c)[Chosen(s, c)].weight, Weights(PutBack(s, c), c, |s.tasks|))
  {
    hide Best, Weights, Slice, Floor;
  }

  /** The state after the time is charged and the sleepers are up, from which the choice is made. */
  ghost predicate Roused(s: State, w: State, c: nat, forced: bool, now: nat)
    requires OnCpu(s, c) && Bound(s)
  {
    var i := s.cpus[c].current;
    && |w.tasks| == |s.tasks| && |w.cpus| == |s.cpus| && OnCpu(w, c) && w.cpus[c].current == i
    && (forall k :: 0 <= k < |s.tasks| && k != i ==> if Rises(s.tasks[k], c, now) then Awake(s, w, k) else w.tasks[k] == s.tasks[k])
    && (Current(s, c).state != Sleeping ==> exists d: nat ::
          && (Pays(s, c, forced) ==> Cost(d, Current(s, c).weight))
          && w.tasks[i] == s.tasks[i].(vruntime := s.tasks[i].vruntime + if Pays(s, c, forced) then d else 0))
    && w.cpus[c].slice == if forced || s.cpus[c].slice == 0 then s.cpus[c].slice else s.cpus[c].slice - 1
  }

  lemma RousedIs(s: State, c: nat, forced: bool, now: nat)
    requires OnCpu(s, c) && Bound(s) && Current(s, c).weight > 0
    ensures Bound(Charged(s, c, forced)) && Roused(s, WakeSleepers(Charged(s, c, forced), c, now, 0), c, forced, now)
  {
    hide WakeSleepers, Delta, Cost;
    DeltaIs(Current(s, c));
    var s1 := Charged(s, c, forced);
    ChargedIs(s, c, forced);
    RisesExactly(s1, c, now, 0);
    WakeKeepsTables(s1, c, now, 0);
    ChargedSlice(s, c, forced);
  }

  lemma ChargedSlice(s: State, c: nat, forced: bool)
    requires OnCpu(s, c)
    ensures Charged(s, c, forced).cpus[c].slice == if forced || s.cpus[c].slice == 0 then s.cpus[c].slice else s.cpus[c].slice - 1
  {
    hide Delta;
  }

  /**
   One pass: the tick or yield is paid for, the sleepers whose time has come are up, and unless the current task goes
   on it is put back and the first of all takes over, for a turn by its weight.
   */
  lemma SchedulePass(s: State, c: nat, forced: bool, now: nat) returns (w: State)
    requires Inv(s) && OnCpu(s, c) && Bound(s)
    ensures var z, i := Schedule(s, c, forced, now), s.cpus[c].current;
      if !forced && Current(s, c).idle && !s.cpus[c].pending then z == s
      else
        && Roused(s, w, c, forced, now)
        && (if GoesOn(s, c, forced) then z == w
            else
              && |z.tasks| == |s.tasks| && OnCpu(z, c) && FirstRuns(z, c)
              && (forall k :: 0 <= k < |s.tasks| && k != i && k != z.cpus[c].current ==> z.tasks[k] == w.tasks[k])
              && (i != z.cpus[c].current ==> z.tasks[i] == w.tasks[i].(state := if w.tasks[i].state == Running then Ready else w.tasks[i].state))
              && Current(z, c) == w.tasks[z.cpus[c].current].(state := Running)
              && (w.tasks[z.cpus[c].current].state == Ready || (z.cpus[c].current == i && w.tasks[i].state == Running))
              && Turn(z.cpus[c].slice, Current(z, c).weight, ReadyWeight(PutBack(w, c), c)))
  {
    hide Charged, WakeSleepers, Switched, FairOk, WaitsOk, HeldOk, PendingOk, Unsettled, Sleepers, Delta, Pays, RunnersKept, Struct, Turn, FirstRuns,
      ReadyWeight;
    w := s;
    CurrentWeight(s, c);
    if !forced && Current(s, c).idle && !s.cpus[c].pending {
      return;
    }
    var skip := Unsettled(s, c, forced);
    ChargedKeeps(s, c, forced);
    RousedIs(s, c, forced, now);
    var s1 := Charged(s, c, forced);
    SleepersKeep(s1, c, now, 0, skip);
    w := WakeSleepers(s1, c, now, 0);
    InvCpu(w, None, skip, c);
    GoesOnIs(s, w, c, forced, now);
    if !KeepsRunning(w, c, forced) {
      UnsettledIs(s, c, forced);
      FairSkip(w, None, skip, c);
      SwitchIs(w, c, Sleepers(w.tasks, c));
    }
  }

  lemma CurrentWeight(s: State, c: nat)
    requires Inv(s) && OnCpu(s, c)
    ensures Current(s, c).weight > 0
  {
    hide FairOk, WaitsOk, HeldOk, PendingOk;
    assert CpuOk(s, c) && TaskOk(s, Current(s, c), s.cpus[c].current);
  }

  lemma GoesOnIs(s: State, w: State, c: nat, forced: bool, now: nat)
    requires OnCpu(s, c) && Bound(s) && Roused(s, w, c, forced, now) && w == WakeSleepers(Charged(s, c, forced), c, now, 0)
    ensures KeepsRunning(w, c, forced) <==> GoesOn(s, c, forced)
  {
    hide WakeSleepers, Delta, Cost, Charged;
    ChargedIs(s, c, forced);
    var s1, i := Charged(s, c, forced), s.cpus[c].current;
    RisesExactly(s1, c, now, 0);
    assert s1.tasks[i].state == s.tasks[i].state && s1.tasks[i].idle == s.tasks[i].idle && s1.tasks[i].depth == s.tasks[i].depth;
  }

  // ---------------------------------------------------------------- creation and sleep

  /** A new task is ready, told to its CPU, and starts where the least of the tasks that can run there stands. */
  lemma CreateStarts(s: State, i: nat, cpu: nat, weight: nat)
    requires Inv(s) && Bound(s) && Enabled(s, Create(i, cpu, weight))
    ensures var z := Next(s, Create(i, cpu, weight));
      && |z.tasks| == |s.tasks| && |z.cpus| == |s.cpus| && z.cpus[cpu].pending && z.nextId == s.nextId + 1
      && z.tasks[i] == Task(s.nextId, cpu, weight, false, Ready, z.cpus[cpu].floor, 0, 0, None)
      && (forall k :: 0 <= k < |s.tasks| && k != i ==> z.tasks[k] == s.tasks[k])
      && (forall k :: 0 <= k < |s.tasks| && Runs(s.tasks[k], cpu) ==> z.tasks[i].vruntime <= s.tasks[k].vruntime)
      && (forall k :: 0 <= k < |s.tasks| && Least(s.tasks, k, cpu) ==> z.tasks[i].vruntime == s.tasks[k].vruntime)
  {
    hide Floor, Struct, WaitsOk, HeldOk, PendingOk, TurnOk;
    FloorIs(s, cpu, None);
  }

  /** Sleeping takes a task off its CPU until its time; with preemption off it is refused. */
  lemma SleepLeaves(s: State, c: nat, wake: nat)
    requires Bound(s) && Enabled(s, Sleep(c, wake))
    ensures var z, i := Next(s, Sleep(c, wake)), s.cpus[c].current;
      if Current(s, c).depth > 0 then z == s
      else |z.tasks| == |s.tasks| && z.tasks[i].state == Sleeping && z.tasks[i].wake == wake && z.tasks[i].cpu == s.tasks[i].cpu
  {
    hide Bound;
  }

  /** The pass on its own CPU at or after its time. */
  predicate WakesUp(s: State, e: Event, i: nat)
    requires i < |s.tasks|
  {
    (e.Tick? || e.Yield?) && e.c == s.tasks[i].cpu && e.now >= s.tasks[i].wake
  }

  lemma PassSleeper(s: State, c: nat, forced: bool, now: nat, i: nat)
    requires Inv(s) && OnCpu(s, c) && Bound(s) && i < |s.tasks| && s.tasks[i].state == Sleeping && !s.tasks[i].idle
    requires s.cpus[s.tasks[i].cpu].current != i
    ensures var z := Schedule(s, c, forced, now);
      && |z.tasks| == |s.tasks|
      && (if c == s.tasks[i].cpu && now >= s.tasks[i].wake then z.tasks[i].state == Ready || z.tasks[i].state == Running
          else z.tasks[i] == s.tasks[i])
  {
    hide Schedule, FairOk, WaitsOk, HeldOk, Pays, Cost, Turn, ReadyWeight, Struct;
    var w := SchedulePass(s, c, forced, now);
    assert Work(s, s.tasks[i], i);
    var z := Schedule(s, c, forced, now);
    if z != s {
      CurrentHere(s, c);
      assert i != s.cpus[c].current;
    }
  }

  lemma CurrentHere(s: State, c: nat)
    requires Inv(s) && OnCpu(s, c)
    ensures Current(s, c).cpu == c
  {
    hide FairOk, WaitsOk, HeldOk, PendingOk;
    assert CpuOk(s, c);
  }

  /** A task that sleeps is left alone by every step until the first pass of its CPU at or after its time, which makes it ready. */
  lemma SleepsUntil(s: State, e: Event, i: nat)
    requires Inv(s) && 0 < |s.cpus| && Bound(s) && Enabled(s, e) && i < |s.tasks| && s.tasks[i].state == Sleeping && !s.tasks[i].idle
    requires s.cpus[s.tasks[i].cpu].current != i
    ensures var z := Next(s, e);
      && |z.tasks| == |s.tasks|
      && (if WakesUp(s, e, i) then z.tasks[i].state == Ready || z.tasks[i].state == Running
          else z.tasks[i] == s.tasks[i])
  {
    hide InvBut, Schedule, Unlocked, Posted, Created, Started, NoneWaits, Answer;
    match e
    case Tick(c, now) => PassSleeper(s, c, false, now, i);
    case Yield(c, now) => PassSleeper(s, c, true, now, i);
    case Create(k, cpu, weight) => CreateStarts(s, k, cpu, weight);
    case Start(k) => StartOthers(s, k);
    case Unlock(c, m) => UnlockSleeper(s, c, m, i);
    case Post(k) => WakesWaiters(s, e);
    case _ => OwnStep(s, e, i);
  }

  lemma UnlockSleeper(s: State, c: nat, m: nat, i: nat)
    requires Bound(s) && Enabled(s, Unlock(c, m)) && i < |s.tasks| && s.tasks[i].state == Sleeping
    ensures var z := Next(s, Unlock(c, m)); |z.tasks| == |s.tasks| && z.tasks[i] == s.tasks[i]
  {
    hide WakeFrom;
    if Answer(s, Unlock(c, m)) == Done {
      WakesWaiters(s, Unlock(c, m));
    }
  }

  lemma StartOthers(s: State, k: nat)
    requires k < |s.tasks|
    ensures |Started(s, k).tasks| == |s.tasks| && forall i :: 0 <= i < |s.tasks| && i != k ==> Started(s, k).tasks[i] == s.tasks[i]
  {
    hide Floor;
  }

  lemma OwnStep(s: State, e: Event, i: nat)
    requires Inv(s) && Bound(s) && Enabled(s, e) && i < |s.tasks| && s.tasks[i].state == Sleeping && s.cpus[s.tasks[i].cpu].current != i
    requires !e.Tick? && !e.Yield? && !e.Create? && !e.Start? && !e.Unlock? && !e.Post?
    ensures |Next(s, e).tasks| == |s.tasks| && Next(s, e).tasks[i] == s.tasks[i]
  {
    hide FairOk, WaitsOk, HeldOk, PendingOk, NoneWaits, SameId;
    if e.Exit? || e.Sleep? || e.TryLock? || e.Lock? || e.Take? || e.Disable? || e.Enable? {
      assert CpuOk(s, e.c);
      assert s.cpus[e.c].current != i;
    }
  }
}
