/** Whole runs of the scheduler and the mutex, from boot. */
module SchedRuns {
  import opened Basics
  import opened Tasks
  import opened SchedInv
  import opened SchedSteps

  /** What can happen: a timer tick, or something the current task does. Each is atomic. */
  datatype Step =
    | TickStep
    | IdleStep  // the kernel's idle loop calls schedule
    | YieldStep
    | WaitStep
    | ExitStep
    | LockStep
    | TryLockStep
    | UnlockStep
    | SetTierStep(tier: Tier)  // task_set_tier on itself, and the tier changes of vm_handle_pressure
    | CreateStep(slot: int, tier: Tier, quota: nat, parent: int)
    | ReapStep(slot: int)
    | KillStep(slot: int)

  /** A task that waits in mutex_lock and is on the CPU again retries before it does anything else. */
  ghost predicate Free(s: Sys)
    requires Shape(s)
  {
    s.current != IDLE && !s.task[s.current].inLock
  }

  /** sys_fork by the current task: a child keeps the parent's tier or asks for one above 0, and cannot shed a quota. */
  ghost predicate Forks(s: Sys, tier: Tier, quota: nat, parent: int)
    requires Shape(s)
  {
    && Free(s) && parent == s.current && quota <= 100
    && (tier == TIER_KERNEL ==> s.task[parent].tier == TIER_KERNEL)
    && (s.task[parent].quota > 0 ==> 0 < quota <= s.task[parent].quota)
  }

  /** create_task, and spawn_user_process on top of it. */
  ghost predicate Spawns(tier: Tier, quota: nat, parent: int) {
    parent == NONE && quota == 0 && (tier == TIER_USER || tier == TIER_SYSTEM)
  }

  ghost predicate Legal(s: Sys, step: Step)
    requires Shape(s)
  {
    match step
    case TickStep =>
      && (s.task[s.current].kill ==> s.current != IDLE && ParentOk(s))
      && !Hazard(BeforeTick(s))
    case IdleStep => s.current == IDLE
    case YieldStep => Free(s) && !Hazard(Yielding(s))
    case WaitStep => Free(s)
    case ExitStep => Free(s) && ParentOk(s)
    case LockStep => s.current != IDLE
    case TryLockStep => Free(s)
    case UnlockStep => Free(s)
    case SetTierStep(_) => Free(s)
    case CreateStep(slot, tier, quota, parent) =>
      Slot(slot) && !s.task[slot].inUse && (Forks(s, tier, quota, parent) || Spawns(tier, quota, parent))
    case ReapStep(slot) => Slot(slot) && s.task[slot].inUse && s.task[slot].state == Exited
    case KillStep(slot) =>
      && Free(s) && Slot(slot)
      && s.task[slot].inUse && s.task[slot].parent == s.current && s.task[slot].state != Exited
  }

  function Apply(s: Sys, step: Step): (s': Sys)
    requires Shape(s)
    ensures Shape(s')
  {
    match step
    case TickStep => Tick(s)
    case IdleStep => Schedule(s)
    case YieldStep => Yield(s)
    case WaitStep => WaitChild(s)
    case ExitStep => Exit(s)
    case LockStep => Lock(s)
    case TryLockStep => TryLock(s)
    case UnlockStep => Unlock(s)
    case SetTierStep(tier) => SetTier(s, s.current, tier)
    case CreateStep(slot, tier, quota, parent) => if Slot(slot) then Create(s, slot, tier, quota, parent) else s
    case ReapStep(slot) => if Slot(slot) then Reap(s, slot) else s
    case KillStep(slot) => if Slot(slot) then MarkKill(s, slot) else s
  }

  /** Every step keeps the invariant. */
  lemma {:induction false} StepInv(s: Sys, step: Step)
    requires Inv(s) && Legal(s, step)
    ensures Inv(Apply(s, step))
  {
    hide Schedule, Inner, CurrentOk, Hazard, Dying, Ticked, Yielding, Waits, Blocked, SetTier, Create, Reap, Unlock,
         Acquired, TryLock, MarkKill;
    InnerShape(s);
    match step
    case TickStep => TickInv(s);
    case IdleStep => NoHazard(s); ScheduleInv(s);
    case YieldStep => YieldingInner(s); ScheduleInv(Yielding(s));
    case WaitStep => WaitsInner(s); NoHazard(Waits(s)); ScheduleInv(Waits(s));
    case ExitStep => DyingInner(s); NoHazard(Dying(s)); ScheduleInv(Dying(s));
    case LockStep => LockInv(s);
    case TryLockStep => AcquiredInner(s);
    case UnlockStep => UnlockInner(s);
    case SetTierStep(tier) => SetTierInner(s, s.current, tier);
    case CreateStep(slot, tier, quota, parent) => CreateInner(s, slot, tier, quota, parent);
    case ReapStep(slot) => ReapInner(s, slot);
    case KillStep(slot) => KillInner(s, slot, true);
  }

  lemma {:induction false} KillInner(s: Sys, t: int, k: bool)
    requires Inner(s) && Slot(t)
    ensures Inner(s.(task := s.task[t := s.task[t].(kill := k)]))
    ensures CurrentOk(s) ==> CurrentOk(s.(task := s.task[t := s.task[t].(kill := k)]))
    ensures MarkKill(s, t) == s.(task := s.task[t := s.task[t].(kill := true)])
  {
    FieldInner(s, t, s.task[t].(kill := k));
  }

  lemma {:induction false} NoHazard(s: Sys)
    requires Shape(s) && (s.current == IDLE || s.task[s.current].state == Waiting || s.task[s.current].state == Exited)
    ensures !Hazard(s)
  {
  }

  lemma {:induction false} TickInv(s: Sys)
    requires Inv(s) && Legal(s, TickStep)
    ensures Inv(Tick(s)) && Inner(BeforeTick(s))
  {
    hide Schedule, Inner, CurrentOk, Hazard, Dying, Ticked;
    InnerShape(s);
    var p := s.current;
    if s.task[p].kill {
      KillInner(s, p, false);
      var s1 := s.(task := s.task[p := s.task[p].(kill := false)]);
      TicksInner(s1, (s.ticks + 1) % TICK_WRAP);
      var s2 := s1.(ticks := (s.ticks + 1) % TICK_WRAP);
      DyingInner(s2);
      ScheduleInv(Dying(s2));
    } else {
      TickedInner(s);
      ScheduleInv(Ticked(s));
    }
  }

  /** The switch away from a task that died wakes nobody and takes nobody off the wait queue. */
  lemma {:induction false} LeavesWaiters(s: Sys, p: int)
    requires Shape(s) && s.current != IDLE && s.task[s.current].state == Exited && Slot(p) && s.task[p].state == Ready
    ensures Schedule(s).mutex == s.mutex && Schedule(s).task[p].state != Waiting
  {
    hide PickQueue, FirstEligible, QIdx;
    PickedRange(s, 0);
  }

  /** An exit, or a tick that kills, keeps the invariant exactly when the parent is not blocked in the mutex. */
  lemma {:induction false} ExitInvIff(s: Sys)
    requires Inv(s) && s.current != IDLE
    ensures Inv(Exit(s)) <==> ParentOk(s)
    ensures s.task[s.current].kill ==> (Inv(Tick(s)) <==> ParentOk(s))
  {
    hide Schedule, QueueOk, AllQueued, OnlyRuns, CurrentOk, Hazard, Dying;
    DiesIff(s);
    var p := s.current;
    KillInner(s, p, false);
    var s1 := s.(task := s.task[p := s.task[p].(kill := false)]);
    TicksInner(s1, (s.ticks + 1) % TICK_WRAP);
    DiesIff(s1.(ticks := (s.ticks + 1) % TICK_WRAP));
  }

  lemma {:induction false} DiesIff(s: Sys)
    requires Inv(s) && s.current != IDLE
    ensures Inv(Schedule(Dying(s))) <==> ParentOk(s)
  {
    hide Schedule, QueueOk, AllQueued, OnlyRuns, CurrentOk, Hazard, Dying;
    if ParentOk(s) {
      DyingInner(s);
      NoHazard(Dying(s));
      ScheduleInv(Dying(s));
    } else {
      ParentWoken(s);
      var p := s.task[s.current].parent;
      LeavesWaiters(Dying(s), p);
      assert !IsWaiter(Schedule(Dying(s)), p);
    }
  }

  lemma {:induction false} LockInv(s: Sys)
    requires Inv(s) && s.current != IDLE
    ensures Inv(Lock(s))
  {
    hide Schedule, Inner, CurrentOk, Hazard, Acquired, TryLock, Boost, Dequeue;
    InnerShape(s);
    if !s.mutex.locked {
      AcquiredInner(s);
    } else {
      BlockedInner(s);
      NoHazard(Blocked(s));
      ScheduleInv(Blocked(s));
    }
  }

  // ------------------------------------------------------------------ runs

  function Boot(inherit: bool): (s: Sys)
    ensures Shape(s)
  {
    var free := Task(false, Running, 0, TIER_KERNEL, 0, 0, 0, 0, 0, false, false, TIER_KERNEL, NONE, false, false);
    Sys(seq(NR_QUEUES, i => []), seq(MAX_TASKS + 1, i => if i == IDLE then free.(state := Ready, timeslice := TASK_TIMESLICE) else free),
        IDLE, Mutex(false, NONE, [], inherit), 0)
  }

  ghost predicate LegalRun(s: Sys, steps: seq<Step>)
    requires Shape(s)
    decreases |steps|
  {
    steps != [] ==> Legal(s, steps[0]) && LegalRun(Apply(s, steps[0]), steps[1..])
  }

  function Run(s: Sys, steps: seq<Step>): (s': Sys)
    requires Shape(s)
    ensures Shape(s')
    decreases |steps|
  {
    if steps == [] then s else Run(Apply(s, steps[0]), steps[1..])
  }

  lemma {:induction false} BootInv(inherit: bool)
    ensures Inv(Boot(inherit))
  {
    var s := Boot(inherit);
    assert forall k :: 0 <= k < NR_QUEUES ==> QueueOk(s, k);
    assert forall t :: !ReadyTask(s, t) && !RunningTask(s, t);
  }

  /** In every state of every run: no task lost, none on two queues or twice on one, and no blocked or gone task queued. */
  lemma {:induction false} RunInv(s: Sys, steps: seq<Step>)
    requires Inv(s) && LegalRun(s, steps)
    ensures Inv(Run(s, steps))
    decreases |steps|
  {
    hide Inner, CurrentOk, Legal, Apply;
    InnerShape(s);
    if steps != [] {
      StepInv(s, steps[0]);
      RunInv(Apply(s, steps[0]), steps[1..]);
    }
  }

  /** The invariant read out: where each task of a reachable state is. */
  lemma {:induction false} ReachableQueues(inherit: bool, steps: seq<Step>, t: int)
    requires LegalRun(Boot(inherit), steps) && Slot(t)
    ensures var s := Run(Boot(inherit), steps);
            var v := s.task[t];
            && (forall k :: 0 <= k < NR_QUEUES && t in s.q[k] ==> k == v.curQueue && v.inUse && v.state != Waiting && v.state != Exited)
            && (forall k :: 0 <= k < NR_QUEUES ==> Distinct(s.q[k]))
            && (v.inUse && v.state == Ready && t != s.current ==>
                forall k :: 0 <= k < NR_QUEUES ==> (t in s.q[k] <==> k == QIdx(v)))
            && (t in s.mutex.waitq ==> v.state == Waiting && forall k :: 0 <= k < NR_QUEUES ==> t !in s.q[k])
            && Distinct(s.mutex.waitq) && (s.mutex.locked <==> s.mutex.holder != NONE)
  {
    BootInv(inherit);
    RunInv(Boot(inherit), steps);
    var s := Run(Boot(inherit), steps);
    forall k | 0 <= k < NR_QUEUES ensures Distinct(s.q[k]) && (t in s.q[k] ==> OnIt(s, k, t)) {
      assert QueueOk(s, k) && (t in s.q[k] ==> OnIt(s, k, t));
    }
    assert ReadyTask(s, t) && t != s.current ==> t in s.q[QIdx(s.task[t])];
    assert t in s.mutex.waitq ==> IsWaiter(s, t);
  }
}
