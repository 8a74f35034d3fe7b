/** Priority inheritance over one holding of the mutex. */
module SchedInherit {
  import opened Tasks
  import opened SchedInv
  import opened SchedSteps
  import opened SchedRuns
  import opened SchedLaws

  /** History of the current holding: the holder's tier when it took the lock, and the tiers of those who blocked since. */
  datatype Holding = Holding(orig: Tier, blocked: seq<Tier>)

  function Track(s: Sys, h: Holding, step: Step): (h': Holding)
    requires Shape(s)
  {
    if step.LockStep? && s.mutex.locked then h.(blocked := h.blocked + [s.task[s.current].tier])
    else if (step.LockStep? || step.TryLockStep?) && !s.mutex.locked then Holding(s.task[s.current].tier, [])
    else h
  }

  /** t is the least of the original tier number and those of the blocked tasks. */
  ghost predicate IsLeast(t: Tier, h: Holding) {
    && t <= h.orig && (forall x <- h.blocked :: t <= x)
    && (t == h.orig || t in h.blocked)
  }

  ghost predicate Uninherited(s: Sys, t: int)
    requires Shape(s)
  {
    Slot(t) && s.task[t].inUse ==> !s.task[t].inherited
  }

  ghost predicate HolderOk(s: Sys, h: Holding)
    requires Shape(s)
  {
    s.mutex.locked && s.mutex.inherit ==>
      && Slot(s.mutex.holder)
      && var v := s.task[s.mutex.holder];
         && v.inUse && v.state != Exited
         && IsLeast(v.tier, h) && (v.inherited <==> v.tier < h.orig) && (v.inherited ==> v.saved == h.orig)
  }

  ghost predicate InheritInv(s: Sys, h: Holding)
    requires Shape(s)
  {
    && (forall t :: t != s.mutex.holder ==> Uninherited(s, t))
    && HolderOk(s, h)
    && (s.mutex.locked && !s.mutex.inherit ==> Uninherited(s, s.mutex.holder))
  }

  /** Nothing but the mutex changes the holder's tier, and the holder does not end while holding. */
  ghost predicate Holds(s: Sys, step: Step)
    requires Shape(s)
  {
    && (step.SetTierStep? ==> s.current != s.mutex.holder)
    && (step.ExitStep? || (step.TickStep? && s.task[s.current].kill) ==> s.current != s.mutex.holder)
  }

  /** The parts of a task that inheritance is about. */
  ghost predicate SameTier(v: Task, v': Task) {
    && v'.inUse == v.inUse && v'.tier == v.tier && v'.inherited == v.inherited && v'.saved == v.saved
    && (v'.state == Exited <==> v.state == Exited)
  }

  ghost predicate TiersSame(s: Sys, s': Sys) {
    && Shape(s) && Shape(s') && s'.mutex.(waitq := []) == s.mutex.(waitq := [])
    && forall t :: Slot(t) ==> SameTier(s.task[t], s'.task[t])
  }

  lemma {:induction false} TiersTrans(s: Sys, s': Sys, s'': Sys)
    requires TiersSame(s, s') && TiersSame(s', s'')
    ensures TiersSame(s, s'')
  {
    forall t | Slot(t) ensures SameTier(s.task[t], s''.task[t]) {
      assert SameTier(s.task[t], s'.task[t]) && SameTier(s'.task[t], s''.task[t]);
    }
  }

  lemma {:induction false} TiersKeep(s: Sys, s': Sys, h: Holding)
    requires TiersSame(s, s') && InheritInv(s, h)
    ensures InheritInv(s', h)
  {
    assert forall t :: Slot(t) ==> SameTier(s.task[t], s'.task[t]);
    assert forall t :: Uninherited(s, t) ==> Uninherited(s', t);
  }

  lemma {:induction false} ScheduleTiers(s: Sys)
    requires Inner(s) && !Hazard(s)
    ensures TiersSame(s, Schedule(s))
  {
    hide Inner, Hazard, Schedule;
    InnerShape(s);
    ScheduleOutcome(s);
    forall t | Slot(t) ensures SameTier(s.task[t], Schedule(s).task[t]) { assert Framed(s.task[t], Schedule(s).task[t]); }
  }

  lemma {:induction false} LevelTiers(s: Sys, t: int, level: int)
    requires Shape(s) && 0 <= t <= IDLE
    ensures TiersSame(s, SetLevel(s, t, level))
  {
    hide Remove, QIdx;
  }

  lemma {:induction false} AgingTiers(s: Sys, i: nat)
    requires Shape(s) && i <= MAX_TASKS
    ensures TiersSame(s, Aging(s, i))
    decreases MAX_TASKS - i
  {
    hide SetLevel;
    if i < MAX_TASKS {
      var s1 := if Ages(s.task[i]) then SetLevel(s, i, s.task[i].level - 1) else s;
      LevelTiers(s, i, s.task[i].level - 1);
      AgingTiers(s1, i + 1);
      TiersTrans(s, s1, Aging(s1, i + 1));
    }
  }

  lemma {:induction false} TickedTiers(s: Sys)
    requires Shape(s)
    ensures TiersSame(s, Ticked(s))
  {
    hide Demote, Aging, QuotaReset;
    var p := s.current;
    var s0 := s.(ticks := (s.ticks + 1) % TICK_WRAP, task := s.task[p := Account(s.task[p])]);
    var s1 := Demote(s0);
    var s2 := if s1.ticks % MLFQ_AGING_TICKS == 0 then Aging(s1, 0) else s1;
    DemoteTiers(s0);
    AgingTiers(s1, 0);
    TiersTrans(s, s0, s1);
    assert TiersSame(s1, s2);
    TiersTrans(s, s1, s2);
    ResetTiers(s2);
    TiersTrans(s, s2, QuotaReset(s2));
  }

  lemma {:induction false} ResetTiers(s: Sys)
    requires Shape(s)
    ensures TiersSame(s, QuotaReset(s))
  {
  }

  lemma {:induction false} DemoteTiers(s: Sys)
    requires Shape(s)
    ensures TiersSame(s, Demote(s))
  {
    hide SetLevel;
    var p := s.current;
    var s0 := s.(task := s.task[p := s.task[p].(contTicks := s.task[p].contTicks + 1)]);
    LevelTiers(s0, p, s0.task[p].level + 1);
    TiersTrans(s, s0, SetLevel(s0, p, s0.task[p].level + 1));
  }

  lemma {:induction false} YieldingTiers(s: Sys)
    requires Inv(s) && s.current != IDLE
    ensures TiersSame(s, Yielding(s)) && TiersSame(s, Waits(s))
  {
    hide TiersSame, Yielding, Waits, Inv;
    YieldingSame(s);
    WaitsSame(s);
  }

  lemma {:induction false} WaitsSame(s: Sys)
    requires Inv(s) && s.current != IDLE
    ensures TiersSame(s, Waits(s))
  {
    hide Dequeue, QueueOk, AllQueued, OnlyRuns;
    DequeueSame(WithState(s, s.current, Waiting), s.current);
  }

  lemma {:induction false} YieldingSame(s: Sys)
    requires Inv(s) && s.current != IDLE
    ensures TiersSame(s, Yielding(s))
  {
    hide SetLevel, QueueOk, AllQueued, OnlyRuns;
    var p := s.current;
    var s0 := s.(task := s.task[p := s.task[p].(contTicks := 0)]);
    LevelTiers(s0, p, 0);
    TiersTrans(s, s0, SetLevel(s0, p, 0));
    var s1 := if s.task[p].tier == TIER_USER then if s0.task[p].level > 0 then SetLevel(s0, p, 0) else s0 else s;
    assert TiersSame(s, s1);
    assert SameTier(s.task[p], s1.task[p]);
    TiersTrans(s, s1, WithState(s1, p, Ready));
  }

  /** Exit of a task that does not hold the lock. */
  lemma {:induction false} DyingInherit(s: Sys, h: Holding)
    requires Inv(s) && s.current != IDLE && s.current != s.mutex.holder && ParentOk(s) && InheritInv(s, h)
    ensures InheritInv(Dying(s), h)
  {
    hide Dying, IsLeast, Inv;
    assert Shape(s) by { InvShape(s); }
    DyingTask(s, s.current);
    forall t | Slot(t) ensures t != s.current ==> SameTier(s.task[t], Dying(s).task[t]) { DyingTask(s, t); }
    forall t | t != s.mutex.holder ensures Uninherited(Dying(s), t) { assert Uninherited(s, t); }
  }

  lemma {:induction false} InvShape(s: Sys)
    requires Inv(s)
    ensures Shape(s)
  {
  }

  /** Exit changes no other task's tier, and leaves the mutex alone. */
  lemma {:induction false} DyingTask(s: Sys, t: int)
    requires Shape(s) && Slot(t) && s.current != IDLE
    ensures Dying(s).mutex == s.mutex
    ensures if t == s.current then !Dying(s).task[t].inherited else SameTier(s.task[t], Dying(s).task[t])
  {
    hide Remove, QIdx, Dequeue;
    DequeueSame(s, s.current);
  }

  // ------------------------------------------------------------------ the mutex itself

  lemma {:induction false} TierTiers(s: Sys, t: int, tier: Tier)
    requires Shape(s) && 0 <= t <= IDLE
    ensures var s' := SetTier(s, t, tier);
            && s'.mutex == s.mutex && (forall x :: 0 <= x <= IDLE && x != t ==> s'.task[x] == s.task[x])
            && s'.task[t] == s.task[t].(tier := tier, curQueue := s'.task[t].curQueue)
  {
    hide Remove, QIdx;
  }

  /** Taking account of one more blocked task. */
  lemma {:induction false} LeastOfMore(t: Tier, h: Holding, x: Tier)
    requires IsLeast(t, h)
    ensures IsLeast(if t > x then x else t, h.(blocked := h.blocked + [x]))
  {
  }

  lemma {:induction false} BoostInherit(s: Sys, h: Holding)
    requires Shape(s) && s.mutex.holder != NONE && s.mutex.locked && InheritInv(s, h)
    ensures InheritInv(Boost(s), h.(blocked := h.blocked + [s.task[s.current].tier])) && Boost(s).mutex == s.mutex
  {
    hide SetTier;
    var b, me, o := Boost(s), s.current, s.mutex.holder;
    var s0 := if s.task[o].inherited then s else s.(task := s.task[o := s.task[o].(saved := s.task[o].tier)]);
    TierTiers(s0, o, s.task[me].tier);
    if s.mutex.inherit { LeastOfMore(s.task[o].tier, h, s.task[me].tier); }
    assert Uninherited(s, o) ==> !s.mutex.inherit ==> Uninherited(b, o);
    forall t | t != o ensures Uninherited(b, t) { assert Uninherited(s, t); }
  }

  lemma {:induction false} BlockedInherit(s: Sys, h: Holding)
    requires Inv(s) && s.current != IDLE && s.mutex.locked && InheritInv(s, h)
    ensures InheritInv(Blocked(s), h.(blocked := h.blocked + [s.task[s.current].tier]))
  {
    hide Boost, Dequeue, QueueOk, AllQueued, OnlyRuns, InheritInv;
    BoostInherit(s, h);
    BoostInner(s);
    DequeueSame(Boost(s), s.current);
    TiersKeep(Boost(s), Blocked(s), h.(blocked := h.blocked + [s.task[s.current].tier]));
  }

  lemma {:induction false} AcquiredInherit(s: Sys, h: Holding)
    requires Inv(s) && s.current != IDLE && !s.mutex.locked && InheritInv(s, h)
    ensures InheritInv(Acquired(s), Holding(s.task[s.current].tier, []))
    ensures InheritInv(TryLock(s), Holding(s.task[s.current].tier, []))
  {
    hide QueueOk, AllQueued, OnlyRuns;
    var me := s.current;
    assert Uninherited(s, me) && s.task[me].state != Exited;
    forall t ensures Uninherited(Acquired(s), t) && Uninherited(TryLock(s), t) { assert Uninherited(s, t); }
  }

  /** Unlock gives the holder back exactly the tier it had when it took the lock. */
  lemma {:induction false} UnlockRestores(s: Sys, h: Holding)
    requires Inv(s) && s.mutex.locked && s.mutex.inherit && InheritInv(s, h)
    ensures Unlock(s).task[s.mutex.holder].tier == h.orig
  {
    hide SetTier, QueueOk, AllQueued, OnlyRuns;
    var o := s.mutex.holder;
    TierTiers(s.(task := s.task[o := s.task[o].(inherited := false)]), o, s.task[o].saved);
  }

  lemma {:induction false} UnlockInherit(s: Sys, h: Holding)
    requires Inv(s) && InheritInv(s, h)
    ensures InheritInv(Unlock(s), h)
  {
    hide SetTier, QueueOk, AllQueued, OnlyRuns, QIdx, IsLeast;
    var o, s' := s.mutex.holder, Unlock(s);
    if o != NONE { TierTiers(s.(task := s.task[o := s.task[o].(inherited := false)]), o, s.task[o].saved); }
    forall t ensures Uninherited(s', t) { assert t != o ==> Uninherited(s, t); }
  }

  lemma {:induction false} OtherInherit(s: Sys, h: Holding, step: Step)
    requires Inv(s) && InheritInv(s, h) && Legal(s, step) && Holds(s, step)
    requires step.SetTierStep? || step.CreateStep? || step.ReapStep? || step.KillStep?
    ensures InheritInv(Apply(s, step), h)
  {
    hide SetTier, QueueOk, AllQueued, OnlyRuns, QIdx, IsLeast, Hazard;
    if step.SetTierStep? { TierTiers(s, s.current, step.tier); }
    var s' := Apply(s, step);
    forall t | t != s.mutex.holder || !s.mutex.inherit ensures Uninherited(s, t) ==> Uninherited(s', t) { }
  }

  /** Every step of a holding keeps the holder's tier the least of the original and those of the blocked. */
  lemma {:induction false} StepInherit(s: Sys, h: Holding, step: Step)
    requires Inv(s) && InheritInv(s, h) && Legal(s, step) && Holds(s, step)
    ensures InheritInv(Apply(s, step), Track(s, h, step))
  {
    hide Schedule, Inner, Hazard, Dying, Ticked, Yielding, Waits, Blocked, Acquired, SetTier, Unlock, InheritInv;
    InnerShape(s);
    match step
    case TickStep => TickInherit(s, h);
    case IdleStep => NoHazard(s); ScheduleTiers(s); TiersKeep(s, Schedule(s), h);
    case YieldStep =>
      YieldingInner(s);
      YieldingTiers(s);
      ScheduleTiers(Yielding(s));
      TiersTrans(s, Yielding(s), Schedule(Yielding(s)));
      TiersKeep(s, Schedule(Yielding(s)), h);
    case WaitStep =>
      WaitsInner(s);
      YieldingTiers(s);
      NoHazard(Waits(s));
      ScheduleTiers(Waits(s));
      TiersTrans(s, Waits(s), Schedule(Waits(s)));
      TiersKeep(s, Schedule(Waits(s)), h);
    case ExitStep =>
      DyingInner(s);
      DyingInherit(s, h);
      NoHazard(Dying(s));
      ScheduleTiers(Dying(s));
      TiersKeep(Dying(s), Schedule(Dying(s)), h);
    case LockStep =>
      if s.mutex.locked {
        BlockedInner(s);
        BlockedInherit(s, h);
        NoHazard(Blocked(s));
        ScheduleTiers(Blocked(s));
        TiersKeep(Blocked(s), Schedule(Blocked(s)), Track(s, h, step));
      } else {
        AcquiredInherit(s, h);
      }
    case TryLockStep => if !s.mutex.locked { AcquiredInherit(s, h); }
    case UnlockStep => UnlockInherit(s, h);
    case SetTierStep(tier) => OtherInherit(s, h, step);
    case CreateStep(slot, tier, quota, parent) => OtherInherit(s, h, step);
    case ReapStep(slot) => OtherInherit(s, h, step);
    case KillStep(slot) => OtherInherit(s, h, step);
  }

  lemma {:induction false} TickInherit(s: Sys, h: Holding)
    requires Inv(s) && InheritInv(s, h) && Legal(s, TickStep) && Holds(s, TickStep)
    ensures InheritInv(Tick(s), h)
  {
    hide Schedule, Inner, Hazard, Dying, Ticked, InheritInv;
    InnerShape(s);
    TickInv(s);
    var p := s.current;
    if s.task[p].kill {
      var s1 := s.(ticks := (s.ticks + 1) % TICK_WRAP, task := s.task[p := s.task[p].(kill := false)]);
      KillInner(s, p, false);
      TicksInner(s.(task := s1.task), s1.ticks);
      assert TiersSame(s, s1);
      TiersKeep(s, s1, h);
      DyingInherit(s1, h);
    } else {
      TickedTiers(s);
      TiersKeep(s, Ticked(s), h);
    }
    ScheduleTiers(BeforeTick(s));
    TiersKeep(BeforeTick(s), Schedule(BeforeTick(s)), h);
  }

  // ------------------------------------------------------------------ runs

  ghost predicate HoldsRun(s: Sys, steps: seq<Step>)
    requires Shape(s)
    decreases |steps|
  {
    steps != [] ==> Holds(s, steps[0]) && HoldsRun(Apply(s, steps[0]), steps[1..])
  }

  ghost function TrackRun(s: Sys, h: Holding, steps: seq<Step>): (h': Holding)
    requires Shape(s)
    decreases |steps|
  {
    if steps == [] then h else TrackRun(Apply(s, steps[0]), Track(s, h, steps[0]), steps[1..])
  }

  lemma {:induction false} RunInherit(s: Sys, h: Holding, steps: seq<Step>)
    requires Inv(s) && InheritInv(s, h) && LegalRun(s, steps) && HoldsRun(s, steps)
    ensures Inv(Run(s, steps)) && InheritInv(Run(s, steps), TrackRun(s, h, steps))
    decreases |steps|
  {
    hide Inner, CurrentOk, Legal, Apply, InheritInv, Holds, Track;
    InnerShape(s);
    if steps != [] {
      StepInv(s, steps[0]);
      StepInherit(s, h, steps[0]);
      RunInherit(Apply(s, steps[0]), Track(s, h, steps[0]), steps[1..]);
    }
  }

  /** From boot, whenever the inheriting mutex is held: the holder's tier, its queue if it is ready, and what unlock will restore. */
  lemma {:induction false} HeldTier(steps: seq<Step>)
    requires LegalRun(Boot(true), steps) && HoldsRun(Boot(true), steps)
    ensures var s, h := Run(Boot(true), steps), TrackRun(Boot(true), Holding(0, []), steps);
            s.mutex.locked && s.mutex.inherit ==>
              && Slot(s.mutex.holder) && IsLeast(s.task[s.mutex.holder].tier, h)
              && (ReadyTask(s, s.mutex.holder) && s.mutex.holder != s.current ==> s.mutex.holder in s.q[QIdx(s.task[s.mutex.holder])])
              && Unlock(s).task[s.mutex.holder].tier == h.orig
  {
    hide Inv, Run, TrackRun, LegalRun, HoldsRun, QIdx, Unlock, Boot, IsLeast;
    var b, h0 := Boot(true), Holding(0, []);
    BootInv(true);
    BootInherit(h0);
    RunInherit(b, h0, steps);
    HeldNow(Run(b, steps), TrackRun(b, h0, steps));
  }

  lemma {:induction false} BootInherit(h: Holding)
    ensures InheritInv(Boot(true), h)
  {
  }

  lemma {:induction false} HeldNow(s: Sys, h: Holding)
    requires Inv(s) && InheritInv(s, h)
    ensures s.mutex.locked && s.mutex.inherit ==>
              && Slot(s.mutex.holder) && IsLeast(s.task[s.mutex.holder].tier, h)
              && (ReadyTask(s, s.mutex.holder) && s.mutex.holder != s.current ==> s.mutex.holder in s.q[QIdx(s.task[s.mutex.holder])])
              && Unlock(s).task[s.mutex.holder].tier == h.orig
  {
    hide QIdx, Unlock, IsLeast, QueueOk;
    if s.mutex.locked && s.mutex.inherit { UnlockRestores(s, h); }
  }

  // ------------------------------------------------------------------ a boost that demotes

  /** Tier numbers are not queue order: a boost keeps or raises the holder's queue unless a critical holder meets a user waiter. */
  lemma {:induction false} BoostRaisesIff(s: Sys)
    requires Shape(s) && s.mutex.inherit && s.mutex.holder != NONE && s.task[s.mutex.holder].tier > s.task[s.current].tier
    ensures QIdx(Boost(s).task[s.mutex.holder]) <= QIdx(s.task[s.mutex.holder]) <==>
            !(s.task[s.mutex.holder].tier == TIER_CRITICAL && s.task[s.current].tier == TIER_USER)
  {
    hide SetTier;
    var o := s.mutex.holder;
    var s0 := if s.task[o].inherited then s else s.(task := s.task[o := s.task[o].(saved := s.task[o].tier)]);
    TierTiers(s0, o, s.task[s.current].tier);
  }
}
