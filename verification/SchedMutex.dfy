/** The mutex: wake-ups are not lost, and priority inheritance lasts exactly as long as a holding. */
module SchedMutex {
  import opened Basics
  import opened Tasks
  import opened SchedInv
  import opened SchedSteps
  import opened SchedRuns
  import opened SchedLaws

  // ------------------------------------------------------------------ wake-ups

  /** t was woken inside mutex_lock and has still to retry. */
  ghost predicate Retrying(s: Sys, t: int)
    requires Shape(s)
  {
    (ReadyTask(s, t) || RunningTask(s, t)) && s.task[t].inLock
  }

  /** Whoever waits will be woken: the lock is held, or a woken waiter is still to retry. */
  ghost predicate WakeOk(s: Sys)
    requires Shape(s)
  {
    s.mutex.waitq != [] && !s.mutex.locked ==> exists t :: Slot(t) && Retrying(s, t)
  }

  /** SYS_KILL strikes the only woken waiter before it retries. */
  ghost predicate LosesWakeup(s: Sys)
    requires Shape(s)
  {
    && s.mutex.waitq != [] && !s.mutex.locked && s.task[s.current].kill
    && forall t :: Slot(t) && Retrying(s, t) ==> t == s.current
  }

  /** Everybody but x who was to retry still is. */
  ghost predicate KeepsRetrying(s: Sys, s': Sys, x: int) {
    && Shape(s) && Shape(s')
    && forall t :: Slot(t) && t != x && Retrying(s, t) ==> Retrying(s', t)
  }

  ghost predicate SameRetrying(s: Sys, s': Sys) {
    && Shape(s) && Shape(s')
    && forall t :: Slot(t) ==> (Retrying(s, t) <==> Retrying(s', t))
  }

  lemma {:induction false} ScheduleRetrying(s: Sys)
    requires Inner(s) && !Hazard(s)
    ensures SameRetrying(s, Schedule(s)) && Schedule(s).mutex == s.mutex
  {
    hide Inner, Hazard, Schedule;
    InnerShape(s);
    ScheduleOutcome(s);
    var s' := Schedule(s);
    forall t | Slot(t) ensures Retrying(s, t) <==> Retrying(s', t) { assert Framed(s.task[t], s'.task[t]); }
  }

  /** The parts of a task that say whether it is to retry. */
  ghost predicate SameLock(v: Task, v': Task) {
    v'.inUse == v.inUse && v'.inLock == v.inLock && v'.state == v.state
  }

  ghost predicate LocksSame(s: Sys, s': Sys) {
    && Shape(s) && Shape(s') && s'.current == s.current
    && forall t :: 0 <= t <= IDLE ==> SameLock(s.task[t], s'.task[t])
  }

  lemma {:induction false} LocksTrans(s: Sys, s': Sys, s'': Sys)
    requires LocksSame(s, s') && LocksSame(s', s'')
    ensures LocksSame(s, s'')
  {
    forall t | 0 <= t <= IDLE ensures SameLock(s.task[t], s''.task[t]) {
      assert SameLock(s.task[t], s'.task[t]) && SameLock(s'.task[t], s''.task[t]);
    }
  }

  lemma {:induction false} LocksRetrying(s: Sys, s': Sys)
    requires LocksSame(s, s')
    ensures SameRetrying(s, s')
  {
    forall t | Slot(t) ensures Retrying(s, t) <==> Retrying(s', t) { assert SameLock(s.task[t], s'.task[t]); }
  }

  lemma {:induction false} SmallLocks(s: Sys, t: int, level: int, tier: Tier)
    requires Shape(s) && 0 <= t <= IDLE
    ensures LocksSame(s, SetLevel(s, t, level)) && LocksSame(s, SetTier(s, t, tier))
  {
    hide Remove, QIdx;
  }

  lemma {:induction false} TickedLocks(s: Sys)
    requires Shape(s)
    ensures LocksSame(s, Ticked(s))
  {
    hide Demote, Aging, QuotaReset;
    var p := s.current;
    var s0 := s.(ticks := (s.ticks + 1) % TICK_WRAP, task := s.task[p := Account(s.task[p])]);
    var s1 := Demote(s0);
    var s2 := if s1.ticks % MLFQ_AGING_TICKS == 0 then Aging(s1, 0) else s1;
    DemoteLocks(s0);
    AgingLocks(s1, 0);
    LocksTrans(s, s0, s1);
    assert LocksSame(s1, s2);
    LocksTrans(s, s1, s2);
    ResetLocks(s2);
    LocksTrans(s, s2, QuotaReset(s2));
  }

  lemma {:induction false} ResetLocks(s: Sys)
    requires Shape(s)
    ensures LocksSame(s, QuotaReset(s))
  {
  }

  lemma {:induction false} DemoteLocks(s: Sys)
    requires Shape(s)
    ensures LocksSame(s, Demote(s))
  {
    hide SetLevel;
    var p := s.current;
    var s0 := s.(task := s.task[p := s.task[p].(contTicks := s.task[p].contTicks + 1)]);
    SmallLocks(s0, p, s0.task[p].level + 1, 0);
    LocksTrans(s, s0, SetLevel(s0, p, s0.task[p].level + 1));
  }

  lemma {:induction false} AgingLocks(s: Sys, i: nat)
    requires Shape(s) && i <= MAX_TASKS
    ensures LocksSame(s, Aging(s, i))
    decreases MAX_TASKS - i
  {
    hide SetLevel;
    if i < MAX_TASKS {
      var s1 := if Ages(s.task[i]) then SetLevel(s, i, s.task[i].level - 1) else s;
      SmallLocks(s, i, s.task[i].level - 1, 0);
      AgingLocks(s1, i + 1);
      LocksTrans(s, s1, Aging(s1, i + 1));
    }
  }

  /** Exit takes only the exiting task away; its parent may only become ready. */
  lemma {:induction false} DyingRetrying(s: Sys)
    requires Inner(s) && CurrentOk(s) && s.current != IDLE && ParentOk(s)
    ensures KeepsRetrying(s, Dying(s), s.current) && !Retrying(Dying(s), s.current)
    ensures forall t :: Slot(t) && Retrying(Dying(s), t) ==>
            Retrying(s, t) || (s.task[t].state == Waiting && t !in s.mutex.waitq && t == s.task[s.current].parent)
  {
    hide Remove, QIdx, QueueOk, AllQueued, OnlyRuns, Dequeue;
    var t := s.current;
    DequeueSame(s, t);
    var s1 := WithState(Dequeue(s, t), t, Exited);
    var s2 := WakeParent(s1, s.task[t].parent);
    assert Dying(s) == Orphaned(s2, t);
  }

  /** A task blocked inside mutex_lock is in the wait queue. */
  ghost predicate BlockedInLock(s: Sys, t: int)
    requires Shape(s)
  {
    Slot(t) && s.task[t].inUse && s.task[t].state == Waiting && s.task[t].inLock
  }

  ghost predicate WaitersQueued(s: Sys)
    requires Shape(s)
  {
    forall t :: BlockedInLock(s, t) ==> t in s.mutex.waitq
  }

  ghost predicate MutexInv(s: Sys)
    requires Shape(s)
  {
    WakeOk(s) && WaitersQueued(s)
  }

  lemma {:induction false} ScheduleMutex(s: Sys)
    requires Inner(s) && !Hazard(s)
    ensures MutexInv(s) <==> MutexInv(Schedule(s))
  {
    hide Inner, Hazard, Schedule, Retrying;
    InnerShape(s);
    ScheduleRetrying(s);
    ScheduleOutcome(s);
    var s' := Schedule(s);
    forall t ensures BlockedInLock(s, t) <==> BlockedInLock(s', t) { assert Slot(t) ==> Framed(s.task[t], s'.task[t]); }
  }

  lemma {:induction false} LocksMutex(s: Sys, s': Sys)
    requires LocksSame(s, s') && s'.mutex == s.mutex
    ensures MutexInv(s) <==> MutexInv(s')
  {
    hide Retrying;
    LocksRetrying(s, s');
    forall t ensures BlockedInLock(s, t) <==> BlockedInLock(s', t) { assert Slot(t) ==> SameLock(s.task[t], s'.task[t]); }
  }

  lemma {:induction false} YieldingMutex(s: Sys)
    requires Inv(s) && Free(s) && MutexInv(s)
    ensures MutexInv(Yielding(s)) && MutexInv(Waits(s))
  {
    hide MutexInv, Yielding, Waits, Inv;
    YieldingKeeps(s);
    WaitsKeeps(s);
  }

  lemma {:induction false} YieldingKeeps(s: Sys)
    requires Inv(s) && Free(s) && MutexInv(s)
    ensures MutexInv(Yielding(s))
  {
    hide Inner, SetLevel;
    InnerShape(s);
    var p := s.current;
    var s0 := s.(task := s.task[p := s.task[p].(contTicks := 0)]);
    SmallLocks(s0, p, 0, 0);
    LocksTrans(s, s0, SetLevel(s0, p, 0));
    var s1 := if s.task[p].tier == TIER_USER then if s0.task[p].level > 0 then SetLevel(s0, p, 0) else s0 else s;
    assert LocksSame(s, s1);
    YieldingInner(s);
    forall t ensures BlockedInLock(s, t) <==> BlockedInLock(Yielding(s), t) { assert Slot(t) ==> SameLock(s.task[t], s1.task[t]); }
    forall t | Slot(t) ensures Retrying(s, t) <==> Retrying(Yielding(s), t) { assert SameLock(s.task[t], s1.task[t]); }
  }

  lemma {:induction false} WaitsKeeps(s: Sys)
    requires Inv(s) && Free(s) && MutexInv(s)
    ensures MutexInv(Waits(s))
  {
    hide Inner, Dequeue;
    InnerShape(s);
    WaitsInner(s);
    DequeueSame(WithState(s, s.current, Waiting), s.current);
    forall t | Slot(t) ensures Retrying(s, t) <==> Retrying(Waits(s), t) { }
    forall t ensures BlockedInLock(s, t) <==> BlockedInLock(Waits(s), t) { }
  }

  /** Exit keeps the wake-up unless it takes the only task that was to retry. */
  lemma {:induction false} DyingMutex(s: Sys)
    requires Inv(s) && s.current != IDLE && ParentOk(s) && MutexInv(s)
    ensures WaitersQueued(Dying(s)) && Dying(s).mutex == s.mutex
    ensures WakeOk(Dying(s)) <==>
            (s.mutex.waitq != [] && !s.mutex.locked ==> exists t :: Slot(t) && t != s.current && Retrying(s, t))
  {
    hide Inner, Retrying;
    InnerShape(s);
    DyingInner(s);
    DyingRetrying(s);
    DyingBlocked(s);
    forall t | Slot(t) ensures Retrying(Dying(s), t) <==> t != s.current && Retrying(s, t) {
      DyingInLock(s, t);
      assert s.task[t].state == Waiting && s.task[t].inLock && s.task[t].inUse ==> BlockedInLock(s, t);
    }
  }

  lemma {:induction false} DyingInLock(s: Sys, t: int)
    requires Shape(s) && Slot(t)
    ensures Dying(s).task[t].inLock == s.task[t].inLock && Dying(s).task[t].inUse == s.task[t].inUse
    ensures Retrying(Dying(s), t) ==> s.task[t].inLock && s.task[t].inUse
  {
    hide Remove, QIdx, Dequeue;
    DequeueSame(s, s.current);
  }

  lemma {:induction false} DyingBlocked(s: Sys)
    requires Inner(s) && CurrentOk(s) && s.current != IDLE && ParentOk(s) && WaitersQueued(s)
    ensures WaitersQueued(Dying(s))
  {
    hide Remove, QIdx, QueueOk, AllQueued, OnlyRuns, Dequeue;
    DyingInner(s);
    DequeueSame(s, s.current);
    forall t | BlockedInLock(Dying(s), t) ensures t in s.mutex.waitq { assert BlockedInLock(s, t); }
  }

  lemma {:induction false} UnlockMutex(s: Sys)
    requires Inv(s) && MutexInv(s)
    ensures MutexInv(Unlock(s))
  {
    hide Inner, Restore, QIdx;
    InnerShape(s);
    RestoreLocks(s);
    LocksMutex(s, Restore(s));
    UnlockInner(s);
    var r, w, s' := Restore(s), s.mutex.waitq, Unlock(s);
    if w != [] {
      FrontWaiter(s);
      assert SameLock(s.task[w[0]], r.task[w[0]]);
      assert Retrying(s', w[0]);
      forall t | BlockedInLock(s', t) ensures t in s'.mutex.waitq { assert BlockedInLock(r, t) && t != w[0]; }
    } else {
      assert forall t :: BlockedInLock(s', t) <==> BlockedInLock(r, t);
    }
  }

  lemma {:induction false} FrontWaiter(s: Sys)
    requires Inner(s) && s.mutex.waitq != []
    ensures IsWaiter(s, s.mutex.waitq[0])
  {
  }

  lemma {:induction false} RestoreLocks(s: Sys)
    requires Shape(s)
    ensures LocksSame(s, Restore(s))
  {
    hide Remove, QIdx, SetTier;
    var h := s.mutex.holder;
    if h != NONE {
      var r0 := s.(task := s.task[h := s.task[h].(inherited := false)]);
      SmallLocks(r0, h, 0, s.task[h].saved);
      LocksTrans(s, r0, SetTier(r0, h, s.task[h].saved));
    }
  }

  lemma {:induction false} BoostLocks(s: Sys)
    requires Shape(s)
    ensures LocksSame(s, Boost(s)) && Boost(s).mutex == s.mutex
  {
    hide Remove, QIdx;
    var h, me := s.mutex.holder, s.current;
    if h != NONE {
      var s0 := if s.task[h].inherited then s else s.(task := s.task[h := s.task[h].(saved := s.task[h].tier)]);
      SmallLocks(s0, h, 0, s.task[me].tier);
      LocksTrans(s, s0, SetTier(s0, h, s.task[me].tier));
    }
  }

  lemma {:induction false} LockMutex(s: Sys)
    requires Inv(s) && s.current != IDLE && MutexInv(s)
    ensures MutexInv(Lock(s))
  {
    hide Inner, Schedule, Boost, Dequeue, Hazard;
    InnerShape(s);
    if !s.mutex.locked {
      var s' := Acquired(s);
      forall t | BlockedInLock(s', t) ensures t in s'.mutex.waitq { assert BlockedInLock(s, t); }
    } else {
      BoostLocks(s);
      BlockedInner(s);
      DequeueSame(Boost(s), s.current);
      var b, s' := Boost(s), Blocked(s);
      forall t | BlockedInLock(s', t) ensures t in s'.mutex.waitq {
        assert SameLock(s.task[t], b.task[t]);
        assert t != s.current ==> BlockedInLock(s, t);
      }
      NoHazard(s');
      ScheduleMutex(s');
    }
  }

  lemma {:induction false} SlotsMutex(s: Sys, step: Step)
    requires Inv(s) && MutexInv(s) && Legal(s, step) && (step.CreateStep? || step.ReapStep? || step.KillStep?)
    ensures MutexInv(Apply(s, step))
  {
    hide Inner, Schedule, Hazard, QIdx;
    InnerShape(s);
    var s' := Apply(s, step);
    forall t | Slot(t) && Retrying(s, t) ensures Retrying(s', t) { }
    forall t | BlockedInLock(s', t) ensures t in s'.mutex.waitq { assert BlockedInLock(s, t); }
  }

  /** Every step keeps the mutex's promise, and a tick does exactly when it does not kill the last woken waiter. */
  lemma {:induction false} StepMutex(s: Sys, step: Step)
    requires Inv(s) && Legal(s, step) && MutexInv(s)
    ensures MutexInv(Apply(s, step)) <==> !(step.TickStep? && LosesWakeup(s))
  {
    hide Schedule, Inner, Hazard, Dying, Ticked, Yielding, Waits, Lock, SetTier, Unlock, Retrying;
    InnerShape(s);
    match step
    case TickStep => TickMutex(s);
    case IdleStep => NoHazard(s); ScheduleMutex(s);
    case YieldStep => YieldingInner(s); YieldingMutex(s); ScheduleMutex(Yielding(s));
    case WaitStep => WaitsInner(s); YieldingMutex(s); NoHazard(Waits(s)); ScheduleMutex(Waits(s));
    case ExitStep => FreeExit(s);
    case LockStep => LockMutex(s);
    case TryLockStep => assert forall t :: BlockedInLock(TryLock(s), t) <==> BlockedInLock(s, t);
    case UnlockStep => UnlockMutex(s);
    case SetTierStep(tier) =>
      SmallLocks(s, s.current, 0, tier);
      SetTierInner(s, s.current, tier);
      LocksMutex(s, SetTier(s, s.current, tier));
    case CreateStep(slot, tier, quota, parent) => SlotsMutex(s, step);
    case ReapStep(slot) => SlotsMutex(s, step);
    case KillStep(slot) => SlotsMutex(s, step);
  }

  lemma {:induction false} FreeExit(s: Sys)
    requires Inv(s) && Legal(s, ExitStep) && MutexInv(s)
    ensures MutexInv(Exit(s))
  {
    hide Schedule, Inner, Hazard, Dying;
    InnerShape(s);
    DyingInner(s);
    DyingMutex(s);
    NoHazard(Dying(s));
    ScheduleMutex(Dying(s));
  }

  lemma {:induction false} TickMutex(s: Sys)
    requires Inv(s) && Legal(s, TickStep) && MutexInv(s)
    ensures MutexInv(Tick(s)) <==> !LosesWakeup(s)
  {
    hide Schedule, Inner, Hazard, Dying, Ticked, Retrying;
    InnerShape(s);
    TickInv(s);
    var p := s.current;
    if s.task[p].kill {
      var s1 := s.(ticks := (s.ticks + 1) % TICK_WRAP, task := s.task[p := s.task[p].(kill := false)]);
      KillInner(s, p, false);
      TicksInner(s.(task := s1.task), s1.ticks);
      assert LocksSame(s, s1);
      LocksMutex(s, s1);
      LocksRetrying(s, s1);
      DyingMutex(s1);
    } else {
      TickedLocks(s);
      TickedInner(s);
      LocksMutex(s, Ticked(s));
    }
    ScheduleMutex(BeforeTick(s));
  }

  ghost predicate NoWakeupLost(s: Sys, steps: seq<Step>)
    requires Shape(s)
    decreases |steps|
  {
    steps != [] ==> !(steps[0].TickStep? && LosesWakeup(s)) && NoWakeupLost(Apply(s, steps[0]), steps[1..])
  }

  /** Over whole runs: as long as no kill strikes the last woken waiter, waiters always have somebody to wake them. */
  lemma {:induction false} RunMutex(s: Sys, steps: seq<Step>)
    requires Inv(s) && MutexInv(s) && LegalRun(s, steps) && NoWakeupLost(s, steps)
    ensures MutexInv(Run(s, steps)) && Inv(Run(s, steps))
    decreases |steps|
  {
    hide Inner, CurrentOk, Legal, Apply, MutexInv, LosesWakeup;
    InnerShape(s);
    if steps != [] {
      StepInv(s, steps[0]);
      StepMutex(s, steps[0]);
      RunMutex(Apply(s, steps[0]), steps[1..]);
    }
  }

  lemma {:induction false} BootMutex(inherit: bool)
    ensures MutexInv(Boot(inherit))
  {
  }

  /** From boot: in every reachable state waiters have somebody to wake them, and the wait queue and the lock are in order. */
  lemma {:induction false} ReachableMutex(inherit: bool, steps: seq<Step>)
    requires LegalRun(Boot(inherit), steps) && NoWakeupLost(Boot(inherit), steps)
    ensures var s := Run(Boot(inherit), steps);
            && (s.mutex.waitq != [] ==> s.mutex.locked || exists t :: Slot(t) && Retrying(s, t))
            && (s.mutex.locked <==> s.mutex.holder != NONE) && Distinct(s.mutex.waitq)
            && (forall t <- s.mutex.waitq :: Slot(t) && s.task[t].state == Waiting && forall k :: 0 <= k < NR_QUEUES ==> t !in s.q[k])
  {
    var s := Run(Boot(inherit), steps);
    BootInv(inherit);
    BootMutex(inherit);
    hide Inv, MutexInv;
    RunMutex(Boot(inherit), steps);
    assert WakeOk(s) by { MutexWake(s); }
    ReachableQueues(inherit, steps, 0);
    assert Base(s) by { InvBase(s); }
    forall t <- s.mutex.waitq ensures Slot(t) && s.task[t].state == Waiting && forall k :: 0 <= k < NR_QUEUES ==> t !in s.q[k] {
      assert IsWaiter(s, t);
      ReachableQueues(inherit, steps, t);
    }
  }

  lemma {:induction false} MutexWake(s: Sys)
    requires Inv(s) && MutexInv(s)
    ensures WakeOk(s)
  {
  }

  lemma {:induction false} InvBase(s: Sys)
    requires Inv(s)
    ensures Base(s)
  {
  }
}
