/** Every step of the kernel's tasks and its timer keeps the scheduler's invariant. */
module SchedSteps {
  import opened Basics
  import opened Tasks
  import opened SchedInv

  // ------------------------------------------------------------------ changing fields

  /** The parts of a task that decide where it must be. */
  ghost predicate SamePlace(v: Task, v': Task) {
    && v'.inUse == v.inUse && v'.state == v.state && v'.curQueue == v.curQueue && v'.inLock == v.inLock
  }

  ghost predicate Unmoved(s: Sys, s': Sys, t: int)
    requires Shape(s) && Shape(s') && 0 <= t <= IDLE
  {
    SamePlace(s.task[t], s'.task[t]) && (t == s.current || s.task[t].state != Ready || QIdx(s'.task[t]) == QIdx(s.task[t]))
  }

  ghost predicate Alike(s: Sys, s': Sys) {
    && Shape(s) && Shape(s') && s'.q == s.q && s'.current == s.current && s'.mutex == s.mutex
    && forall t :: 0 <= t <= IDLE ==> Unmoved(s, s', t)
  }

  lemma {:induction false} AlikeInner(s: Sys, s': Sys)
    requires Inner(s) && Alike(s, s')
    ensures Inner(s') && (CurrentOk(s) ==> CurrentOk(s'))
  {
    forall j | 0 <= j < NR_QUEUES ensures QueueOk(s', j) {
      assert QueueOk(s, j);
      forall x <- s'.q[j] ensures OnIt(s', j, x) { assert OnIt(s, j, x) && Unmoved(s, s', x); }
    }
    forall x <- s'.mutex.waitq ensures IsWaiter(s', x) { assert IsWaiter(s, x) && Unmoved(s, s', x); }
    forall x | ReadyTask(s', x) && x != s.current ensures x in s'.q[QIdx(s'.task[x])] {
      assert Unmoved(s, s', x) && ReadyTask(s, x);
    }
    forall x | RunningTask(s', x) ensures x == s.current { assert Unmoved(s, s', x) && RunningTask(s, x); }
    forall x | Slot(x) && !s'.task[x].inUse ensures s'.task[x].state == Running { assert Unmoved(s, s', x); }
    assert Unmoved(s, s', s.current);
  }

  lemma {:induction false} FieldInner(s: Sys, t: int, v: Task)
    requires Inner(s) && 0 <= t <= IDLE && SamePlace(s.task[t], v)
    requires t == s.current || s.task[t].state != Ready || QIdx(v) == QIdx(s.task[t])
    ensures Inner(s.(task := s.task[t := v])) && (CurrentOk(s) ==> CurrentOk(s.(task := s.task[t := v])))
  {
    AlikeInner(s, s.(task := s.task[t := v]));
  }

  /** Taking a ready task off its queue, changing its tier or level, and queueing it again. */
  lemma {:induction false} MoveInner(s: Sys, t: int, v: Task)
    requires Inner(s) && ReadyTask(s, t) && t != s.current && SamePlace(s.task[t], v)
    ensures var d := Dequeue(s, t);
            var s' := Enqueue(d.(task := d.task[t := v]), t);
            Inner(s') && (CurrentOk(s) ==> CurrentOk(s')) && s'.mutex == s.mutex && s'.task == s.task[t := v.(curQueue := QIdx(v))]
  {
    hide Remove;
    var d := Dequeue(s, t);
    DequeueBase(s, t);
    var e := d.(task := d.task[t := v]);
    assert t in d.mutex.waitq ==> IsWaiter(d, t);
    FieldsBase(d, t, v);
    EnqueueBase(e, t);
    var s' := Enqueue(e, t);
    forall x | ReadyTask(s', x) && x != s.current ensures x in s'.q[QIdx(s'.task[x])] { assert x != t ==> ReadyTask(s, x); }
    assert forall x :: RunningTask(s', x) ==> RunningTask(s, x) && x != t;
    assert CurrentOk(s) && s.current != IDLE ==> ReadyTask(s', s.current) || RunningTask(s', s.current);
  }

  lemma {:induction false} SetTierInner(s: Sys, t: int, tier: Tier)
    requires Inner(s) && Slot(t)
    ensures var s' := SetTier(s, t, tier);
            && Inner(s') && (CurrentOk(s) ==> CurrentOk(s')) && s'.mutex == s.mutex && s'.ticks == s.ticks
            && s'.task == s.task[t := s.task[t].(tier := tier, curQueue := s'.task[t].curQueue)]
  {
    hide Remove, Enqueue, Dequeue, Inner;
    InnerShape(s);
    var v := s.task[t].(tier := tier);
    if QIdx(s.task[t]) != QIdx(v) && s.task[t].state == Ready && t != s.current {
      MoveInner(s, t, v);
      EnqueueTicks(s, t, v);
    } else {
      FieldInner(s, t, v);
    }
  }

  lemma {:induction false} InnerShape(s: Sys)
    requires Inner(s)
    ensures Shape(s)
    ensures forall t :: Slot(t) && s.task[t].state == Ready ==> ReadyTask(s, t)
  {
  }

  lemma {:induction false} EnqueueTicks(s: Sys, t: int, v: Task)
    requires Shape(s) && 0 <= t <= IDLE && v.curQueue == s.task[t].curQueue
    ensures var d := Dequeue(s, t);
            && Dequeue(s.(task := s.task[t := v]), t) == d.(task := d.task[t := v])
            && Enqueue(d.(task := d.task[t := v]), t).ticks == s.ticks
  {
  }

  lemma {:induction false} SetLevelInner(s: Sys, t: int, level: int)
    requires Inner(s) && 0 <= t <= IDLE && (t == s.current || (t < IDLE && s.task[t].inUse))
    ensures var s' := SetLevel(s, t, level);
            && Inner(s') && (CurrentOk(s) ==> CurrentOk(s')) && s'.mutex == s.mutex && s'.ticks == s.ticks
            && s'.task == s.task[t := s.task[t].(level := s'.task[t].level, curQueue := s'.task[t].curQueue)]
  {
    hide Remove, Enqueue, Dequeue, Inner;
    InnerShape(s);
    var v := s.task[t].(level := ClampLevel(level));
    if s.task[t].level == ClampLevel(level) {
    } else if QIdx(s.task[t]) != QIdx(v) && s.task[t].state == Ready && t != s.current {
      MoveInner(s, t, v);
      EnqueueTicks(s, t, v);
    } else {
      FieldInner(s, t, v);
    }
  }

  /** s' differs from s in levels and queues at most. */
  ghost predicate OnlyLevels(s: Sys, s': Sys) {
    && Shape(s) && Shape(s') && s'.mutex == s.mutex && s'.ticks == s.ticks && s'.current == s.current
    && forall t :: 0 <= t <= IDLE ==> LevelOnly(s.task[t], s'.task[t])
  }

  ghost predicate LevelOnly(v: Task, v': Task) {
    v' == v.(level := v'.level, curQueue := v'.curQueue)
  }

  lemma {:induction false} AgingInner(s: Sys, i: nat)
    requires Inner(s) && i <= MAX_TASKS
    ensures Inner(Aging(s, i)) && (CurrentOk(s) ==> CurrentOk(Aging(s, i))) && OnlyLevels(s, Aging(s, i))
    decreases MAX_TASKS - i
  {
    hide Inner, SetLevel, CurrentOk;
    InnerShape(s);
    if i < MAX_TASKS {
      if Ages(s.task[i]) {
        SetLevelInner(s, i, s.task[i].level - 1);
        var s1 := SetLevel(s, i, s.task[i].level - 1);
        AgingInner(s1, i + 1);
        forall t | 0 <= t <= IDLE ensures LevelOnly(s.task[t], Aging(s1, i + 1).task[t]) {
          assert LevelOnly(s.task[t], s1.task[t]) && LevelOnly(s1.task[t], Aging(s1, i + 1).task[t]);
        }
      } else {
        AgingInner(s, i + 1);
      }
    }
  }

  lemma {:induction false} QuotaResetInner(s: Sys)
    requires Inner(s)
    ensures Inner(QuotaReset(s)) && (CurrentOk(s) ==> CurrentOk(QuotaReset(s)))
  {
    AlikeInner(s, QuotaReset(s));
  }

  // ------------------------------------------------------------------ the timer

  lemma {:induction false} DemoteInner(s: Sys)
    requires Inner(s)
    ensures Inner(Demote(s)) && (CurrentOk(s) ==> CurrentOk(Demote(s)))
    ensures var s' := Demote(s);
            && s'.mutex == s.mutex && s'.ticks == s.ticks
            && s'.task == s.task[s.current := s.task[s.current].(level := s'.task[s.current].level,
                 contTicks := s'.task[s.current].contTicks, curQueue := s'.task[s.current].curQueue)]
  {
    hide Inner, SetLevel, CurrentOk;
    InnerShape(s);
    var p := s.current;
    if s.task[p].tier == TIER_USER && !s.task[p].done {
      var s0 := s.(task := s.task[p := s.task[p].(contTicks := s.task[p].contTicks + 1)]);
      FieldInner(s, p, s0.task[p]);
      if s0.task[p].contTicks >= MLFQ_DEMOTE_TICKS && s0.task[p].level < 2 {
        SetLevelInner(s0, p, s0.task[p].level + 1);
        var s1 := SetLevel(s0, p, s0.task[p].level + 1);
        FieldInner(s1, p, s1.task[p].(contTicks := 0));
      }
    }
  }

  lemma {:induction false} TickedInner(s: Sys)
    requires Inner(s)
    ensures Inner(Ticked(s)) && (CurrentOk(s) ==> CurrentOk(Ticked(s))) && Ticked(s).mutex == s.mutex
  {
    hide Inner, Demote, Aging, QuotaReset, CurrentOk;
    InnerShape(s);
    var p := s.current;
    var s00 := s.(task := s.task[p := Account(s.task[p])]);
    var s0 := s00.(ticks := (s.ticks + 1) % TICK_WRAP);
    FieldInner(s, p, Account(s.task[p]));
    TicksInner(s00, s0.ticks);
    DemoteInner(s0);
    var s1 := Demote(s0);
    AgingInner(s1, 0);
    var s2 := if s1.ticks % MLFQ_AGING_TICKS == 0 then Aging(s1, 0) else s1;
    QuotaResetInner(s2);
    ResetMutex(s2);
  }

  lemma {:induction false} ResetMutex(s: Sys)
    requires Shape(s)
    ensures QuotaReset(s).mutex == s.mutex
  {
  }

  lemma {:induction false} TicksInner(s: Sys, n: nat)
    requires Inner(s)
    ensures Inner(s.(ticks := n)) && (CurrentOk(s) ==> CurrentOk(s.(ticks := n)))
  {
    AlikeInner(s, s.(ticks := n));
  }

  // ------------------------------------------------------------------ exit

  /** A child's exit may wake its parent only if the parent waits for a child, not for the mutex. */
  ghost predicate ParentOk(s: Sys)
    requires Shape(s)
  {
    s.task[s.current].parent !in s.mutex.waitq
  }

  lemma {:induction false} LeaveInner(s: Sys, v: Task)
    requires Inner(s) && CurrentOk(s) && s.current != IDLE && v.inUse && (v.state == Exited || v.state == Waiting)
    ensures var d := Dequeue(s, s.current);
            var s' := d.(task := d.task[s.current := v]);
            Inner(s') && s'.mutex == s.mutex && s'.current == s.current && s'.task == s.task[s.current := v]
  {
    hide Remove;
    var p, d := s.current, Dequeue(s, s.current);
    DequeueBase(s, p);
    assert p in d.mutex.waitq ==> IsWaiter(d, p);
    FieldsBase(d, p, v);
    var s' := d.(task := d.task[p := v]);
    assert forall x :: ReadyTask(s', x) ==> ReadyTask(s, x) && x != p;
    assert forall x :: RunningTask(s', x) ==> RunningTask(s, x);
  }

  lemma {:induction false} WakeParentInner(s: Sys, p: int)
    requires Inner(s) && p !in s.mutex.waitq && (s.current == IDLE || s.task[s.current].state == Exited)
    ensures Inner(WakeParent(s, p)) && WakeParent(s, p).mutex == s.mutex
    ensures WakeParent(s, p).task[s.current] == s.task[s.current] && WakeParent(s, p).ticks == s.ticks
  {
    if Slot(p) && s.task[p].state == Waiting {
      var v := s.task[p].(state := Ready);
      var v' := if v.tier == TIER_USER then v.(contTicks := 0, level := 0) else v;
      forall k | 0 <= k < NR_QUEUES ensures p !in s.q[k] { assert QueueOk(s, k) && (p in s.q[k] ==> OnIt(s, k, p)); }
      FieldsBase(s, p, v');
      JoinInner(s, p, v');
    }
  }

  /** A task that was off the queues becomes ready and is queued. */
  lemma {:induction false} JoinInner(s: Sys, p: int, v: Task)
    requires Inner(s) && Slot(p) && p != s.current && v.inUse && v.state == Ready && OffQueues(s, p)
    requires Base(s.(task := s.task[p := v]))
    ensures Inner(Enqueue(s.(task := s.task[p := v]), p))
  {
    var s1 := s.(task := s.task[p := v]);
    assert ReadyTask(s1, p);
    EnqueueBase(s1, p);
    var s' := Enqueue(s1, p);
    forall x | ReadyTask(s', x) && x != s.current ensures x in s'.q[QIdx(s'.task[x])] { assert x != p ==> ReadyTask(s, x); }
    assert forall x :: RunningTask(s', x) ==> RunningTask(s, x);
  }

  lemma {:induction false} DyingInner(s: Sys)
    requires Inner(s) && CurrentOk(s) && s.current != IDLE && ParentOk(s)
    ensures Inner(Dying(s)) && Dying(s).mutex == s.mutex && Dying(s).task[s.current].state == Exited
  {
    hide Inner, Remove, Enqueue, Dequeue, WakeParent, Orphaned;
    InnerShape(s);
    var t := s.current;
    LeaveInner(s, s.task[t].(state := Exited));
    var s1 := WithState(Dequeue(s, t), t, Exited);
    DequeueSame(s, t);
    WakeParentInner(s1, s.task[t].parent);
    var s2 := WakeParent(s1, s.task[t].parent);
    OrphanedInner(s2, t);
  }

  /** A parent blocked in the mutex is made ready and queued, and stays in the wait queue. */
  lemma {:induction false} ParentWoken(s: Sys)
    requires Inner(s) && CurrentOk(s) && s.current != IDLE && !ParentOk(s)
    ensures var p := s.task[s.current].parent;
            && Slot(p) && p != s.current && p in s.mutex.waitq && Dying(s).mutex == s.mutex
            && Dying(s).task[p].state == Ready && Dying(s).task[s.current].state == Exited
  {
    hide Remove, QueueOk, AllQueued, OnlyRuns, QIdx;
    var t, p := s.current, s.task[s.current].parent;
    assert IsWaiter(s, p);
    DequeueSame(s, t);
  }

  /** A task's death keeps the invariant exactly when its parent is not blocked in the mutex. */
  lemma {:induction false} DyingInnerIff(s: Sys)
    requires Inner(s) && CurrentOk(s) && s.current != IDLE
    ensures Inner(Dying(s)) <==> ParentOk(s)
  {
    hide Dying, QueueOk, AllQueued, OnlyRuns, CurrentOk;
    if ParentOk(s) {
      DyingInner(s);
    } else {
      ParentWoken(s);
      assert !IsWaiter(Dying(s), s.task[s.current].parent);
    }
  }

  lemma {:induction false} DequeueSame(s: Sys, t: int)
    requires Shape(s) && 0 <= t <= IDLE
    ensures Dequeue(s, t).task == s.task && Dequeue(s, t).mutex == s.mutex && Dequeue(s, t).ticks == s.ticks
            && Dequeue(s, t).current == s.current
  {
  }

  lemma {:induction false} OrphanedInner(s: Sys, t: int)
    requires Inner(s) && 0 <= t <= IDLE
    ensures Inner(Orphaned(s, t)) && Orphaned(s, t).mutex == s.mutex && Orphaned(s, t).task[s.current].state == s.task[s.current].state
  {
    AlikeInner(s, Orphaned(s, t));
  }

  // ------------------------------------------------------------------ slots

  lemma {:induction false} CreateInner(s: Sys, t: int, tier: Tier, quota: nat, parent: int)
    requires Inner(s) && Slot(t) && !s.task[t].inUse
    ensures Inner(Create(s, t, tier, quota, parent)) && (CurrentOk(s) ==> CurrentOk(Create(s, t, tier, quota, parent)))
    ensures Create(s, t, tier, quota, parent).mutex == s.mutex
  {
    var s' := Create(s, t, tier, quota, parent);
    var v := Task(true, Ready, -1, tier, 0, 0, TASK_TIMESLICE, quota, 0, false, false, TIER_KERNEL, parent, false, false);
    forall k | 0 <= k < NR_QUEUES ensures t !in s.q[k] { assert QueueOk(s, k) && (t in s.q[k] ==> OnIt(s, k, t)); }
    assert t in s.mutex.waitq ==> IsWaiter(s, t);
    FieldsBase(s, t, v);
    EnqueueBase(s.(task := s.task[t := v]), t);
    forall x | ReadyTask(s', x) && x != s.current ensures x in s'.q[QIdx(s'.task[x])] { assert x != t ==> ReadyTask(s, x); }
    assert forall x :: RunningTask(s', x) ==> RunningTask(s, x);
    assert CurrentOk(s) && s.current != IDLE ==> ReadyTask(s', s.current) || RunningTask(s', s.current);
  }

  lemma {:induction false} ReapInner(s: Sys, t: int)
    requires Inner(s) && CurrentOk(s) && Slot(t) && s.task[t].inUse && s.task[t].state == Exited
    ensures Inner(Reap(s, t)) && CurrentOk(Reap(s, t)) && Reap(s, t).mutex == s.mutex
  {
    var s' := Reap(s, t);
    forall k | 0 <= k < NR_QUEUES ensures t !in s.q[k] { assert QueueOk(s, k) && (t in s.q[k] ==> OnIt(s, k, t)); }
    assert t in s.mutex.waitq ==> IsWaiter(s, t);
    FieldsBase(s, t, s'.task[t]);
    assert forall x :: ReadyTask(s', x) ==> ReadyTask(s, x) && x != t;
    assert forall x :: RunningTask(s', x) ==> RunningTask(s, x) && x != t;
    assert CurrentOk(s) && s.current != IDLE ==> ReadyTask(s', s.current) || RunningTask(s', s.current);
  }

  // ------------------------------------------------------------------ the mutex

  lemma {:induction false} BoostInner(s: Sys)
    requires Inner(s)
    ensures Inner(Boost(s)) && (CurrentOk(s) ==> CurrentOk(Boost(s))) && Boost(s).mutex == s.mutex
    ensures Boost(s).task[s.current] == s.task[s.current] || s.mutex.holder == s.current
  {
    hide SetTier, CurrentOk, QueueOk, AllQueued, OnlyRuns;
    var h, me := s.mutex.holder, s.current;
    if s.mutex.inherit && h != NONE && s.task[h].tier > s.task[me].tier {
      var s0 := if s.task[h].inherited then s else s.(task := s.task[h := s.task[h].(saved := s.task[h].tier)]);
      FieldInner(s, h, s.task[h].(saved := s.task[h].tier));
      SetTierInner(s0, h, s.task[me].tier);
      var s1 := SetTier(s0, h, s.task[me].tier);
      FieldInner(s1, h, s1.task[h].(inherited := true));
    }
  }

  lemma {:induction false} BlockedInner(s: Sys)
    requires Inner(s) && CurrentOk(s) && s.current != IDLE
    ensures Inner(Blocked(s)) && Blocked(s).mutex == s.mutex.(waitq := [s.current] + s.mutex.waitq)
    ensures Blocked(s).task[s.current].state == Waiting
  {
    hide Remove, Boost, Dequeue, QueueOk, AllQueued, OnlyRuns;
    BoostInner(s);
    var b, me := Boost(s), s.current;
    LeaveInner(b, b.task[me].(state := Waiting, inLock := true));
    DequeueSame(b, me);
    var d := Dequeue(b, me);
    var s1 := d.(task := d.task[me := b.task[me].(state := Waiting, inLock := true)]);
    assert me in s.mutex.waitq ==> IsWaiter(s, me);
    PushWaiter(s1, me);
  }

  lemma {:induction false} PushWaiter(s: Sys, t: int)
    requires Inner(s) && IsWaiter(s, t) && t !in s.mutex.waitq
    ensures Inner(s.(mutex := s.mutex.(waitq := [t] + s.mutex.waitq)))
  {
    var s' := s.(mutex := s.mutex.(waitq := [t] + s.mutex.waitq));
    MutexInner(s, s'.mutex);
  }

  /** Inner depends on the mutex only through its waiters and the holder. */
  lemma {:induction false} MutexInner(s: Sys, m: Mutex)
    requires Inner(s) && NONE <= m.holder < IDLE && (m.locked <==> m.holder != NONE)
    requires Distinct(m.waitq) && forall t <- m.waitq :: IsWaiter(s, t)
    ensures Inner(s.(mutex := m)) && (CurrentOk(s) ==> CurrentOk(s.(mutex := m)))
  {
    var s' := s.(mutex := m);
    forall j | 0 <= j < NR_QUEUES ensures QueueOk(s', j) {
      assert QueueOk(s, j);
      forall x <- s'.q[j] ensures OnIt(s', j, x) { assert OnIt(s, j, x); }
    }
    forall x <- m.waitq ensures IsWaiter(s', x) { assert IsWaiter(s, x); }
    assert forall x :: ReadyTask(s', x) ==> ReadyTask(s, x);
    assert forall x :: RunningTask(s', x) ==> RunningTask(s, x);
    assert CurrentOk(s) && s.current != IDLE ==> ReadyTask(s', s.current) || RunningTask(s', s.current);
  }

  lemma {:induction false} AcquiredInner(s: Sys)
    requires Inner(s) && CurrentOk(s) && s.current != IDLE
    ensures Inner(Acquired(s)) && CurrentOk(Acquired(s))
    ensures Inner(TryLock(s)) && CurrentOk(TryLock(s))
  {
    hide QueueOk, AllQueued, OnlyRuns;
    var me := s.current;
    MutexInner(s, s.mutex.(locked := true, holder := me));
    var s1 := s.(mutex := s.mutex.(locked := true, holder := me));
    var v := s1.task[me].(inLock := false);
    UnlockFlag(s1, v);
  }

  /** The current task is not blocked, so leaving mutex_lock moves nobody. */
  lemma {:induction false} UnlockFlag(s: Sys, v: Task)
    requires Inner(s) && CurrentOk(s) && s.current != IDLE && v == s.task[s.current].(inLock := false)
    ensures Inner(s.(task := s.task[s.current := v])) && CurrentOk(s.(task := s.task[s.current := v]))
  {
    var me, s' := s.current, s.(task := s.task[s.current := v]);
    FieldsBase(s, me, v);
    assert forall x :: ReadyTask(s', x) <==> ReadyTask(s, x);
    assert forall x :: RunningTask(s', x) <==> RunningTask(s, x);
  }

  lemma {:induction false} RestoreInner(s: Sys)
    requires Inner(s)
    ensures Inner(Restore(s)) && (CurrentOk(s) ==> CurrentOk(Restore(s)))
  {
    hide SetTier, CurrentOk, QueueOk, AllQueued, OnlyRuns;
    var h := s.mutex.holder;
    if h != NONE && s.task[h].inherited {
      var s0 := s.(task := s.task[h := s.task[h].(inherited := false)]);
      FieldInner(s, h, s.task[h].(inherited := false));
      SetTierInner(s0, h, s.task[h].saved);
      var s1 := SetTier(s0, h, s.task[h].saved);
      FieldInner(s1, h, s1.task[h].(saved := TIER_USER));
    }
  }

  lemma {:induction false} UnlockInner(s: Sys)
    requires Inner(s) && CurrentOk(s)
    ensures Inner(Unlock(s)) && CurrentOk(Unlock(s))
  {
    hide Restore, QueueOk, AllQueued, OnlyRuns, CurrentOk;
    RestoreInner(s);
    var s1, w := Restore(s), s.mutex.waitq;
    if w == [] {
      MutexInner(s1, s1.mutex.(locked := false, holder := NONE));
    } else {
      assert IsWaiter(s1, w[0]);
      MutexInner(s1, s1.mutex.(locked := false, holder := NONE, waitq := w[1..]));
      var s2 := s1.(mutex := s1.mutex.(locked := false, holder := NONE, waitq := w[1..]));
      WokenInner(s2, w[0]);
    }
  }

  lemma {:induction false} WokenInner(s: Sys, t: int)
    requires Inner(s) && CurrentOk(s) && IsWaiter(s, t) && t !in s.mutex.waitq
    ensures Inner(Enqueue(WithState(s, t, Ready), t)) && CurrentOk(Enqueue(WithState(s, t, Ready), t))
  {
    forall k | 0 <= k < NR_QUEUES ensures t !in s.q[k] { assert QueueOk(s, k) && (t in s.q[k] ==> OnIt(s, k, t)); }
    var s1 := WithState(s, t, Ready);
    FieldsBase(s, t, s1.task[t]);
    EnqueueBase(s1, t);
    var s' := Enqueue(s1, t);
    forall x | ReadyTask(s', x) && x != s.current ensures x in s'.q[QIdx(s'.task[x])] { assert x != t ==> ReadyTask(s, x); }
    assert forall x :: RunningTask(s', x) ==> RunningTask(s, x);
    assert CurrentOk(s) && s.current != IDLE ==> ReadyTask(s', s.current) || RunningTask(s', s.current);
  }

  // ------------------------------------------------------------------ yield and wait

  lemma {:induction false} YieldingInner(s: Sys)
    requires Inner(s) && CurrentOk(s) && s.current != IDLE
    ensures Inner(Yielding(s)) && CurrentOk(Yielding(s)) && Yielding(s).mutex == s.mutex
  {
    hide SetLevel, QueueOk, AllQueued, OnlyRuns, CurrentOk;
    var p := s.current;
    FieldInner(s, p, s.task[p].(contTicks := 0));
    var s0 := s.(task := s.task[p := s.task[p].(contTicks := 0)]);
    SetLevelInner(s0, p, 0);
    var s1 := if s.task[p].tier == TIER_USER then if s0.task[p].level > 0 then SetLevel(s0, p, 0) else s0 else s;
    ReadyInner(s1);
  }

  lemma {:induction false} ReadyInner(s: Sys)
    requires Inner(s) && CurrentOk(s) && s.current != IDLE
    ensures Inner(WithState(s, s.current, Ready)) && CurrentOk(WithState(s, s.current, Ready))
  {
    var p, s' := s.current, WithState(s, s.current, Ready);
    forall j | 0 <= j < NR_QUEUES ensures QueueOk(s', j) {
      assert QueueOk(s, j);
      forall x <- s'.q[j] ensures OnIt(s', j, x) { assert OnIt(s, j, x); }
    }
    forall x <- s'.mutex.waitq ensures IsWaiter(s', x) { assert IsWaiter(s, x); }
    assert forall x :: ReadyTask(s', x) && x != p ==> ReadyTask(s, x);
    assert forall x :: RunningTask(s', x) ==> RunningTask(s, x);
    assert ReadyTask(s', p);
  }

  lemma {:induction false} WaitsInner(s: Sys)
    requires Inner(s) && CurrentOk(s) && s.current != IDLE
    ensures Inner(Waits(s)) && Waits(s).mutex == s.mutex && Waits(s).task[s.current].state == Waiting
  {
    var p := s.current;
    LeaveInner(s, s.task[p].(state := Waiting));
    var d := Dequeue(s, p);
    assert Waits(s) == d.(task := d.task[p := s.task[p].(state := Waiting)]);
  }
}
