/** CPU quotas: no task overruns its quota by more than two ticks in a period, in any run. */
module SchedQuota {
  import opened Tasks
  import opened SchedInv
  import opened SchedSteps
  import opened SchedRuns
  import opened SchedLaws

  /** Exhausted exactly when the quota is used up, and never overrun by more than two ticks. */
  ghost predicate TaskQuota(v: Task) {
    && (v.quota == 0 ==> !v.done)
    && (v.quota > 0 ==> (v.done <==> v.used >= Limit(v.quota)) && v.used <= Limit(v.quota) + 2)
  }

  /** A running task has a slice of one to three ticks left, and if exhausted only what the bound allows. */
  ghost predicate SliceBound(v: Task, extra: nat) {
    1 <= v.timeslice <= 3 && (v.quota > 0 && v.done ==> v.used + v.timeslice <= Limit(v.quota) + extra)
  }

  ghost predicate AllQuota(s: Sys)
    requires Shape(s)
  {
    forall t :: Slot(t) && s.task[t].inUse ==> TaskQuota(s.task[t])
  }

  ghost predicate QuotaInv(s: Sys)
    requires Shape(s)
  {
    AllQuota(s) && (s.current != IDLE ==> SliceBound(s.task[s.current], 2))
  }

  /** What a tick may bring into schedule. */
  ghost predicate QuotaIn(s: Sys)
    requires Shape(s)
  {
    AllQuota(s) && (MayRun(s) ==> SliceBound(s.task[s.current], 3))
  }

  lemma {:induction false} ScheduleQuota(s: Sys)
    requires Inner(s) && !Hazard(s) && QuotaIn(s)
    ensures QuotaInv(Schedule(s))
  {
    hide Inner, Hazard, Schedule, Limit;
    InnerShape(s);
    ScheduleInv(s);
    ScheduleOutcome(s);
    var s' := Schedule(s);
    assert forall t :: Slot(t) ==> Framed(s.task[t], s'.task[t]);
    ContinuesMayRun(s, s');
  }

  /** Only a task that may run goes on. */
  lemma {:induction false} ContinuesMayRun(s: Sys, s': Sys)
    requires Outcome(s, s') && Inv(s') && Inner(s)
    ensures s'.current != IDLE && Continues(s, s') ==> MayRun(s)
    ensures s'.current == IDLE || s'.task[s'.current].inUse
  {
    assert s'.current != IDLE ==> Framed(s.task[s'.current], s'.task[s'.current]);
  }

  // ------------------------------------------------------------------ other operations leave quotas alone

  ghost predicate QuotaSame(s: Sys, s': Sys) {
    && Shape(s) && Shape(s') && s'.current == s.current
    && forall t :: 0 <= t <= IDLE ==> SameQuota(s.task[t], s'.task[t])
  }

  ghost predicate SameQuota(v: Task, v': Task) {
    v'.inUse == v.inUse && v'.quota == v.quota && v'.used == v.used && v'.done == v.done && v'.timeslice == v.timeslice
  }

  lemma {:induction false} SameKeeps(s: Sys, s': Sys)
    requires QuotaSame(s, s') && QuotaInv(s)
    ensures QuotaInv(s') && QuotaIn(s')
  {
    assert forall t :: 0 <= t <= IDLE ==> SameQuota(s.task[t], s'.task[t]);
  }

  lemma {:induction false} SmallOps(s: Sys, t: int, level: int, tier: Tier)
    requires Shape(s) && 0 <= t <= IDLE
    ensures QuotaSame(s, SetLevel(s, t, level)) && QuotaSame(s, SetTier(s, t, tier))
  {
    hide Remove, QIdx;
  }

  lemma {:induction false} YieldingQuota(s: Sys)
    requires Shape(s)
    ensures QuotaSame(s, Yielding(s)) && QuotaSame(s, Waits(s))
  {
    hide Remove, SetLevel;
    var s0 := s.(task := s.task[s.current := s.task[s.current].(contTicks := 0)]);
    SmallOps(s0, s.current, 0, 0);
    QuotaTrans(s, s0, SetLevel(s0, s.current, 0));
  }

  lemma {:induction false} QuotaTrans(s: Sys, s': Sys, s'': Sys)
    requires QuotaSame(s, s') && QuotaSame(s', s'')
    ensures QuotaSame(s, s'')
  {
    forall t | 0 <= t <= IDLE ensures SameQuota(s.task[t], s''.task[t]) {
      assert SameQuota(s.task[t], s'.task[t]) && SameQuota(s'.task[t], s''.task[t]);
    }
  }

  lemma {:induction false} DyingQuota(s: Sys)
    requires Shape(s)
    ensures QuotaSame(s, Dying(s))
  {
    hide Remove, QIdx;
    var t := s.current;
    var s1 := WithState(Dequeue(s, t), t, Exited);
    var s2 := WakeParent(s1, s.task[t].parent);
    assert QuotaSame(s, s1);
    assert QuotaSame(s1, s2);
    assert QuotaSame(s2, Orphaned(s2, t));
    QuotaTrans(s, s1, s2);
    QuotaTrans(s, s2, Orphaned(s2, t));
  }

  lemma {:induction false} LockQuota(s: Sys)
    requires Shape(s)
    ensures QuotaSame(s, Blocked(s)) && QuotaSame(s, Acquired(s)) && QuotaSame(s, TryLock(s)) && QuotaSame(s, Unlock(s))
  {
    hide Remove, QIdx, SetTier;
    BoostQuota(s);
    var b := Boost(s);
    QuotaTrans(s, b, Blocked(s));
    QuotaTrans(s, Restore(s), Unlock(s));
  }

  lemma {:induction false} BoostQuota(s: Sys)
    requires Shape(s)
    ensures QuotaSame(s, Boost(s)) && QuotaSame(s, Restore(s))
  {
    hide Remove, QIdx, SetTier, QuotaSame, Boost, Restore;
    assert QuotaSame(s, Boost(s)) by { RaiseQuota(s); }
    assert QuotaSame(s, Restore(s)) by { RestoreQuota(s); }
  }

  lemma {:induction false} RaiseQuota(s: Sys)
    requires Shape(s)
    ensures QuotaSame(s, Boost(s))
  {
    hide Remove, QIdx, SetTier;
    var h, me := s.mutex.holder, s.current;
    if h != NONE {
      var s0 := if s.task[h].inherited then s else s.(task := s.task[h := s.task[h].(saved := s.task[h].tier)]);
      SmallOps(s0, h, 0, s.task[me].tier);
      QuotaTrans(s, s0, SetTier(s0, h, s.task[me].tier));
    }
  }

  lemma {:induction false} RestoreQuota(s: Sys)
    requires Shape(s)
    ensures QuotaSame(s, Restore(s))
  {
    hide Remove, QIdx, SetTier;
    var h := s.mutex.holder;
    if h != NONE {
      var r0 := s.(task := s.task[h := s.task[h].(inherited := false)]);
      SmallOps(r0, h, 0, s.task[h].saved);
      QuotaTrans(s, r0, SetTier(r0, h, s.task[h].saved));
    }
  }

  // ------------------------------------------------------------------ the tick

  lemma {:induction false} DemoteQuota(s: Sys)
    requires Shape(s)
    ensures QuotaSame(s, Demote(s))
  {
    hide SetLevel;
    var p := s.current;
    var s0 := s.(task := s.task[p := s.task[p].(contTicks := s.task[p].contTicks + 1)]);
    SmallOps(s0, p, s0.task[p].level + 1, 0);
    QuotaTrans(s, s0, SetLevel(s0, p, s0.task[p].level + 1));
  }

  lemma {:induction false} AgingQuota(s: Sys, i: nat)
    requires Shape(s) && i <= MAX_TASKS
    ensures QuotaSame(s, Aging(s, i))
    decreases MAX_TASKS - i
  {
    hide SetLevel;
    if i < MAX_TASKS {
      var s1 := if Ages(s.task[i]) then SetLevel(s, i, s.task[i].level - 1) else s;
      SmallOps(s, i, s.task[i].level - 1, 0);
      AgingQuota(s1, i + 1);
      QuotaTrans(s, s1, Aging(s1, i + 1));
    }
  }

  /** One tick of the running task's account. */
  lemma {:induction false} AccountQuota(v: Task)
    requires TaskQuota(v) && SliceBound(v, 2)
    ensures TaskQuota(Account(v)) && SliceBound(Account(v), 3)
  {
    hide Limit;
  }

  lemma {:induction false} TickedQuota(s: Sys)
    requires Inv(s) && QuotaInv(s)
    ensures QuotaIn(Ticked(s))
  {
    hide Demote, Aging, Limit, QueueOk, AllQueued, OnlyRuns;
    var p := s.current;
    var s0 := s.(ticks := (s.ticks + 1) % TICK_WRAP, task := s.task[p := Account(s.task[p])]);
    if p != IDLE { AccountQuota(s.task[p]); }
    var s1 := Demote(s0);
    var s2 := if s1.ticks % MLFQ_AGING_TICKS == 0 then Aging(s1, 0) else s1;
    DemoteQuota(s0);
    AgingQuota(s1, 0);
    QuotaTrans(s0, s1, Aging(s1, 0));
    assert QuotaSame(s0, s2);
    assert forall t :: 0 <= t <= IDLE ==> SameQuota(s0.task[t], s2.task[t]);
    assert AllQuota(s2) && (p != IDLE ==> SliceBound(s2.task[p], 3));
    ResetQuota(s2);
  }

  lemma {:induction false} ResetQuota(s: Sys)
    requires Shape(s) && AllQuota(s) && (s.current != IDLE ==> s.task[s.current].inUse && SliceBound(s.task[s.current], 3))
    ensures AllQuota(QuotaReset(s)) && (s.current != IDLE ==> SliceBound(QuotaReset(s).task[s.current], 3))
  {
    var s' := QuotaReset(s);
    forall t | Slot(t) && s'.task[t].inUse ensures TaskQuota(s'.task[t]) {
      assert s'.task[t] == s.task[t].(used := 0, done := false);
    }
  }

  lemma {:induction false} StepQuota(s: Sys, step: Step)
    requires Inv(s) && Legal(s, step) && QuotaInv(s)
    ensures QuotaInv(Apply(s, step))
  {
    hide Schedule, Inner, CurrentOk, Hazard, Dying, Ticked, Yielding, Waits, Blocked, SetTier, Unlock, Acquired, TryLock, QuotaInv, QuotaIn;
    InnerShape(s);
    match step
    case TickStep =>
      TickInv(s);
      TickQuota(s);
    case IdleStep => NoHazard(s); SameKeeps(s, s); ScheduleQuota(s);
    case YieldStep => YieldingInner(s); YieldingQuota(s); SameKeeps(s, Yielding(s)); ScheduleQuota(Yielding(s));
    case WaitStep => WaitsInner(s); YieldingQuota(s); SameKeeps(s, Waits(s)); NoHazard(Waits(s)); ScheduleQuota(Waits(s));
    case ExitStep => DyingInner(s); DyingQuota(s); SameKeeps(s, Dying(s)); NoHazard(Dying(s)); ScheduleQuota(Dying(s));
    case LockStep => LockStepQuota(s);
    case TryLockStep => LockQuota(s); SameKeeps(s, TryLock(s));
    case UnlockStep => LockQuota(s); SameKeeps(s, Unlock(s));
    case SetTierStep(tier) => SmallOps(s, s.current, 0, tier); SameKeeps(s, SetTier(s, s.current, tier));
    case CreateStep(slot, tier, quota, parent) => CreateQuota(s, slot, tier, quota, parent);
    case ReapStep(slot) => ReapQuota(s, slot);
    case KillStep(slot) => assert QuotaSame(s, MarkKill(s, slot)); SameKeeps(s, MarkKill(s, slot));
  }

  lemma {:induction false} LockStepQuota(s: Sys)
    requires Inv(s) && s.current != IDLE && QuotaInv(s)
    ensures QuotaInv(Lock(s))
  {
    hide Schedule, Inner, CurrentOk, Hazard, Acquired, TryLock, Boost, Dequeue, QuotaInv, QuotaIn, Unlock;
    InnerShape(s);
    LockQuota(s);
    if !s.mutex.locked {
      SameKeeps(s, Acquired(s));
    } else {
      BlockedInner(s);
      NoHazard(Blocked(s));
      SameKeeps(s, Blocked(s));
      ScheduleQuota(Blocked(s));
    }
  }

  lemma {:induction false} TickQuota(s: Sys)
    requires Inv(s) && Legal(s, TickStep) && QuotaInv(s)
    ensures QuotaInv(Tick(s))
  {
    hide Schedule, Inner, CurrentOk, Hazard, Dying, Ticked, QuotaInv, QuotaIn;
    InnerShape(s);
    TickInv(s);
    var p := s.current;
    if s.task[p].kill {
      var s1 := s.(ticks := (s.ticks + 1) % TICK_WRAP, task := s.task[p := s.task[p].(kill := false)]);
      assert QuotaSame(s, s1);
      DyingQuota(s1);
      QuotaTrans(s, s1, Dying(s1));
      SameKeeps(s, Dying(s1));
    } else {
      TickedQuota(s);
    }
    ScheduleQuota(BeforeTick(s));
  }

  lemma {:induction false} CreateQuota(s: Sys, t: int, tier: Tier, quota: nat, parent: int)
    requires Inv(s) && QuotaInv(s) && Slot(t) && !s.task[t].inUse
    ensures QuotaInv(Create(s, t, tier, quota, parent))
  {
  }

  lemma {:induction false} ReapQuota(s: Sys, t: int)
    requires Inv(s) && QuotaInv(s) && Slot(t) && s.task[t].inUse && s.task[t].state == Exited
    ensures QuotaInv(Reap(s, t))
  {
  }

  /** In every reachable state no task has used more than its quota and two ticks in the current period. */
  lemma {:induction false} QuotaBound(inherit: bool, steps: seq<Step>, t: int)
    requires LegalRun(Boot(inherit), steps) && Slot(t)
    ensures var v := Run(Boot(inherit), steps).task[t];
            v.inUse && v.quota > 0 ==> v.used <= v.quota * 10 + 2 && (v.done <==> v.used >= v.quota * 10)
  {
    BootInv(inherit);
    RunQuota(Boot(inherit), steps);
  }

  lemma {:induction false} RunQuota(s: Sys, steps: seq<Step>)
    requires Inv(s) && QuotaInv(s) && LegalRun(s, steps)
    ensures QuotaInv(Run(s, steps)) && Inv(Run(s, steps))
    decreases |steps|
  {
    hide Inner, CurrentOk, Legal, Apply, QuotaInv;
    InnerShape(s);
    if steps != [] {
      StepInv(s, steps[0]);
      StepQuota(s, steps[0]);
      RunQuota(Apply(s, steps[0]), steps[1..]);
    }
  }

  // ------------------------------------------------------------------ without quotas there is no hazard

  ghost predicate NoQuotas(s: Sys)
    requires Shape(s)
  {
    forall t :: Slot(t) && s.task[t].inUse ==> s.task[t].quota == 0
  }

  /** The hazard needs an exhausted task: where no task has a quota, schedule is never in danger. */
  lemma {:induction false} NoQuotaNoHazard(s: Sys)
    requires Inner(s) && AllQuota(s) && NoQuotas(s)
    ensures !Hazard(s)
  {
    hide Remove, FirstEligible;
    var p := s.current;
    if MayRun(s) {
      var k := QIdx(s.task[p]);
      var l := Remove(s.q[k], p);
      assert QueueOk(s, k);
      RemoveMembers(s.q[k], p);
      if l != [] {
        assert l[0] in l && OnIt(s, k, l[0]);
        assert TaskQuota(s.task[l[0]]);
        assert FirstEligible(s.task, l) < |l|;
      }
    }
  }

  /** The demands on a step other than the absence of the hazard. */
  ghost predicate Behaved(s: Sys, step: Step)
    requires Shape(s)
  {
    match step
    case TickStep => s.task[s.current].kill ==> s.current != IDLE && ParentOk(s)
    case YieldStep => Free(s)
    case CreateStep(_, _, quota, _) => Legal(s, step) && quota == 0
    case _ => Legal(s, step)
  }

  ghost predicate BehavedRun(s: Sys, steps: seq<Step>)
    requires Shape(s)
    decreases |steps|
  {
    steps != [] ==> Behaved(s, steps[0]) && BehavedRun(Apply(s, steps[0]), steps[1..])
  }

  ghost predicate SameQuotas(s: Sys, s': Sys) {
    && Shape(s) && Shape(s')
    && forall t :: Slot(t) ==> s'.task[t].inUse == s.task[t].inUse && s'.task[t].quota == s.task[t].quota
  }

  lemma {:induction false} TickEntry(s: Sys)
    requires Inv(s) && QuotaInv(s) && Behaved(s, TickStep)
    ensures Inner(BeforeTick(s)) && QuotaIn(BeforeTick(s)) && SameQuotas(s, BeforeTick(s))
  {
    hide Inner, CurrentOk, Dying, Ticked, QuotaInv, QuotaIn;
    InnerShape(s);
    var p := s.current;
    if s.task[p].kill {
      var s1 := s.(ticks := (s.ticks + 1) % TICK_WRAP, task := s.task[p := s.task[p].(kill := false)]);
      KillInner(s, p, false);
      TicksInner(s.(task := s1.task), s1.ticks);
      DyingInner(s1);
      assert QuotaSame(s, s1);
      DyingQuota(s1);
      QuotaTrans(s, s1, Dying(s1));
      SameKeeps(s, Dying(s1));
      SameToQuotas(s, Dying(s1));
    } else {
      TickedInner(s);
      TickedQuota(s);
      TickedSame(s);
    }
  }

  lemma {:induction false} SameToQuotas(s: Sys, s': Sys)
    requires QuotaSame(s, s')
    ensures SameQuotas(s, s')
  {
    assert forall t :: 0 <= t <= IDLE ==> SameQuota(s.task[t], s'.task[t]);
  }

  lemma {:induction false} TickedSame(s: Sys)
    requires Shape(s)
    ensures SameQuotas(s, Ticked(s))
  {
    hide Demote, Aging, Limit;
    var p := s.current;
    var s0 := s.(ticks := (s.ticks + 1) % TICK_WRAP, task := s.task[p := Account(s.task[p])]);
    var s1 := Demote(s0);
    DemoteQuota(s0);
    AgingQuota(s1, 0);
    SameToQuotas(s0, s1);
    SameToQuotas(s1, Aging(s1, 0));
  }

  /** A well-behaved step of a system without quotas meets no hazard, and brings in no quota. */
  lemma {:induction false} BehavedStep(s: Sys, step: Step)
    requires Inv(s) && QuotaInv(s) && NoQuotas(s) && Behaved(s, step)
    ensures Legal(s, step) && NoQuotas(Apply(s, step))
  {
    hide Schedule, Inner, CurrentOk, Hazard, Dying, Ticked, Yielding, Waits, Blocked, SetTier, Unlock, Acquired, TryLock, BeforeTick;
    InnerShape(s);
    match step
    case TickStep =>
      TickEntry(s);
      NoQuotaNoHazard(BeforeTick(s));
      AfterSchedule(s, BeforeTick(s));
    case IdleStep => NoHazard(s); AfterSchedule(s, s);
    case YieldStep =>
      YieldingInner(s);
      YieldingQuota(s);
      SameKeeps(s, Yielding(s));
      SameToQuotas(s, Yielding(s));
      NoQuotaNoHazard(Yielding(s));
      AfterSchedule(s, Yielding(s));
    case WaitStep => WaitsInner(s); YieldingQuota(s); SameToQuotas(s, Waits(s)); NoHazard(Waits(s)); AfterSchedule(s, Waits(s));
    case ExitStep => DyingInner(s); DyingQuota(s); SameToQuotas(s, Dying(s)); NoHazard(Dying(s)); AfterSchedule(s, Dying(s));
    case LockStep =>
      LockQuota(s);
      SameToQuotas(s, Acquired(s));
      if s.mutex.locked { BlockedInner(s); SameToQuotas(s, Blocked(s)); NoHazard(Blocked(s)); AfterSchedule(s, Blocked(s)); }
    case TryLockStep => LockQuota(s); SameToQuotas(s, TryLock(s));
    case UnlockStep => LockQuota(s); SameToQuotas(s, Unlock(s));
    case SetTierStep(tier) => SmallOps(s, s.current, 0, tier); SameToQuotas(s, SetTier(s, s.current, tier));
    case CreateStep(slot, tier, quota, parent) =>
    case ReapStep(slot) =>
    case KillStep(slot) =>
  }

  lemma {:induction false} AfterSchedule(s: Sys, s1: Sys)
    requires Inner(s1) && !Hazard(s1) && SameQuotas(s, s1)
    ensures SameQuotas(s, Schedule(s1))
  {
    hide Schedule, Hazard, Inner;
    ScheduleOutcome(s1);
    assert forall t :: Slot(t) ==> Framed(s1.task[t], Schedule(s1).task[t]);
  }

  /** Every well-behaved run in which no task is given a quota is free of the hazard from boot to end. */
  lemma {:induction false} BehavedRunIsLegal(s: Sys, steps: seq<Step>)
    requires Inv(s) && QuotaInv(s) && NoQuotas(s) && BehavedRun(s, steps)
    ensures LegalRun(s, steps)
    decreases |steps|
  {
    hide Inner, CurrentOk, Legal, Apply, QuotaInv, Behaved, NoQuotas;
    InnerShape(s);
    if steps != [] {
      BehavedStep(s, steps[0]);
      StepInv(s, steps[0]);
      StepQuota(s, steps[0]);
      BehavedRunIsLegal(Apply(s, steps[0]), steps[1..]);
    }
  }
}
