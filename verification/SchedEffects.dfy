/** What the steps of the scheduler do to each task's account, level, parent and place, in numbers. */
module SchedEffects {
  import opened Basics
  import opened Tasks
  import opened SchedInv
  import opened SchedSteps
  import opened SchedRuns
  import opened SchedLaws

  /** The order of the queues: kernel tasks, then system and critical ones, then user tasks by level. */
  lemma {:induction false} QueueIs(v: Task)
    ensures QIdx(v) == if v.tier == 0 then 0 else if v.tier != 2 then 1 else if v.level <= 0 then 2 else if v.level == 1 then 3 else 4
  {
  }

  // ------------------------------------------------------------------ a tick

  function Between(l: int, lo: int, hi: int): int { if l < lo then lo else if l > hi then hi else l }

  /** A tick's charge on the running task's account: it is exhausted at ten ticks for each percent. */
  predicate Charge(v: Task, runs: bool, used: nat, done: bool) {
    if runs && v.quota > 0 then used == v.used + 1 && (done <==> v.done || v.used + 1 >= 10 * v.quota)
    else used == v.used && done == v.done
  }

  /** A running user task with quota left sinks one level at its third tick in a row. */
  predicate Sinks(v: Task, runs: bool, done: bool, level: int, contTicks: nat) {
    if !(runs && v.tier == 2 && !done) then level == v.level && contTicks == v.contTicks
    else if v.contTicks >= 2 && v.level < 2 then level == Between(v.level + 1, 0, 2) && contTicks == 0
    else level == v.level && contTicks == v.contTicks + 1
  }

  /** At every 300th tick a user task that could run, with quota left, rises one level. */
  function Risen(v: Task, done: bool, level: int, tick: nat): int {
    if tick % 300 == 0 && v.tier == 2 && level > 0 && !done && (v.state == Ready || v.state == Running)
    then Between(level - 1, 0, 2) else level
  }

  /** All that a tick does to a task other than schedule it: at every 1000th tick the accounts start anew. */
  ghost predicate TickedTask(v: Task, v': Task, runs: bool, tick: nat) {
    exists used: nat, done: bool, level: int ::
      && Charge(v, runs, used, done) && Sinks(v, runs, done, level, v'.contTicks)
      && v'.level == Risen(v, done, level, tick)
      && v'.used == (if tick % 1000 == 0 then 0 else used) && v'.done == (tick % 1000 != 0 && done)
      && v' == v.(used := v'.used, done := v'.done, level := v'.level, contTicks := v'.contTicks,
                  state := v'.state, timeslice := v'.timeslice, curQueue := v'.curQueue)
  }

  lemma {:induction false} AccountIs(v: Task)
    ensures Charge(v, true, Account(v).used, Account(v).done)
    ensures Account(v) == v.(used := Account(v).used, done := Account(v).done)
  {
    if v.quota > 0 { assert Limit(v.quota) == 10 * v.quota; }
  }

  lemma {:induction false} SetLevelIs(s: Sys, t: int, level: int, x: int)
    requires Shape(s) && 0 <= t <= IDLE && 0 <= x <= IDLE
    ensures var s' := SetLevel(s, t, level);
            && s'.ticks == s.ticks && s'.current == s.current
            && s'.task[x] == s.task[x].(level := if x == t then Between(level, 0, 2) else s.task[x].level, curQueue := s'.task[x].curQueue)
  {
    hide QIdx, Remove;
  }

  lemma {:induction false} DemoteIs(s: Sys, x: int)
    requires Shape(s) && 0 <= x <= IDLE
    ensures var s', v := Demote(s), s.task[x];
            && s'.ticks == s.ticks && s'.current == s.current
            && Sinks(v, x == s.current, v.done, s'.task[x].level, s'.task[x].contTicks)
            && s'.task[x] == v.(level := s'.task[x].level, contTicks := s'.task[x].contTicks, curQueue := s'.task[x].curQueue)
  {
    hide SetLevel;
    var p := s.current;
    var s0 := s.(task := s.task[p := s.task[p].(contTicks := s.task[p].contTicks + 1)]);
    SetLevelIs(s0, p, s0.task[p].level + 1, x);
  }

  /** Aging from slot i on. */
  lemma {:induction false} AgingIs(s: Sys, i: nat, x: int)
    requires Shape(s) && i <= MAX_TASKS && 0 <= x <= IDLE
    ensures var s', v := Aging(s, i), s.task[x];
            && s'.ticks == s.ticks && s'.current == s.current
            && s'.task[x] == v.(level := if i <= x < MAX_TASKS && v.inUse then Risen(v, v.done, v.level, 0) else v.level,
                                curQueue := s'.task[x].curQueue)
    decreases MAX_TASKS - i
  {
    hide SetLevel;
    if i < MAX_TASKS {
      var s1 := if Ages(s.task[i]) then SetLevel(s, i, s.task[i].level - 1) else s;
      SetLevelIs(s, i, s.task[i].level - 1, x);
      AgingIs(s1, i + 1, x);
    }
  }

  lemma {:induction false} ResetIs(s: Sys, x: int)
    requires Shape(s) && Slot(x) && s.task[x].inUse
    ensures QuotaReset(s).task[x] == s.task[x].(used := 0, done := false)
  {
  }

  /** A tick up to its call of schedule. */
  lemma {:induction false} TickedIs(s: Sys, x: int)
    requires Shape(s) && Slot(x) && s.task[x].inUse
    ensures TickedTask(s.task[x], Ticked(s).task[x], x == s.current, (s.ticks + 1) % 0x1_0000_0000)
  {
    hide Demote, Aging, Account, QuotaReset, Charge, Sinks, Risen;
    var p, v := s.current, s.task[x];
    var s0 := s.(ticks := (s.ticks + 1) % TICK_WRAP, task := s.task[p := Account(s.task[p])]);
    AccountIs(s.task[p]);
    NotCharged(v);
    var used, done := s0.task[x].used, s0.task[x].done;
    DemoteIs(s0, x);
    var s1 := Demote(s0);
    SinksAs(v, s0.task[x], x == p, s1.task[x].level, s1.task[x].contTicks);
    AgingIs(s1, 0, x);
    RisenAs(v, s1.task[x], done, s1.task[x].level, s0.ticks);
    var s2 := if s1.ticks % MLFQ_AGING_TICKS == 0 then Aging(s1, 0) else s1;
    ResetIs(s2, x);
    assert Charge(v, x == p, used, done) && Sinks(v, x == p, done, s1.task[x].level, s2.task[x].contTicks);
  }

  lemma {:induction false} NotCharged(v: Task)
    ensures Charge(v, false, v.used, v.done)
  {
  }

  /** Only tier, level and count decide whether a task sinks, and only those and its state whether it rises. */
  lemma {:induction false} SinksAs(v: Task, v1: Task, runs: bool, level: int, contTicks: nat)
    requires v1 == v.(used := v1.used, done := v1.done)
    ensures Sinks(v1, runs, v1.done, level, contTicks) <==> Sinks(v, runs, v1.done, level, contTicks)
  {
  }

  lemma {:induction false} RisenAs(v: Task, v1: Task, done: bool, level: int, tick: nat)
    requires v1.tier == v.tier && v1.state == v.state
    ensures Risen(v1, done, level, if tick % 300 == 0 then 0 else 1) == Risen(v, done, level, tick)
    ensures tick % 300 != 0 ==> Risen(v, done, level, tick) == level
  {
  }

  /**
   A tick, schedule included, of a task that is not to be killed: the running task is charged, sinks at its
   third tick in a row, every task rises at every 300th tick, and at every 1000th all accounts start anew.
   */
  lemma {:induction false} TickEffect(s: Sys, x: int)
    requires Inv(s) && Legal(s, TickStep) && !s.task[s.current].kill && Slot(x) && s.task[x].inUse
    ensures TickedTask(s.task[x], Tick(s).task[x], x == s.current, (s.ticks + 1) % 0x1_0000_0000)
    ensures Tick(s).ticks == (s.ticks + 1) % 0x1_0000_0000
  {
    hide Schedule, Ticked, Hazard, QueueOk, AllQueued, OnlyRuns, Dying, TickedTask, CurrentOk;
    TickedInner(s);
    TickedIs(s, x);
    TickedClock(s);
    ScheduleOutcome(Ticked(s));
    assert Framed(Ticked(s).task[x], Schedule(Ticked(s)).task[x]);
    TickedFramed(s.task[x], Ticked(s).task[x], Schedule(Ticked(s)).task[x], x == s.current, (s.ticks + 1) % 0x1_0000_0000);
  }

  lemma {:induction false} TickedFramed(v: Task, v1: Task, v2: Task, runs: bool, tick: nat)
    requires TickedTask(v, v1, runs, tick) && Framed(v1, v2)
    ensures TickedTask(v, v2, runs, tick)
  {
    var used: nat, done: bool, level: int :|
      && Charge(v, runs, used, done) && Sinks(v, runs, done, level, v1.contTicks)
      && v1.level == Risen(v, done, level, tick)
      && v1.used == (if tick % 1000 == 0 then 0 else used) && v1.done == (tick % 1000 != 0 && done);
    assert Charge(v, runs, used, done) && Sinks(v, runs, done, level, v2.contTicks) && v2.level == Risen(v, done, level, tick);
  }

  lemma {:induction false} TickedClock(s: Sys)
    requires Shape(s)
    ensures Ticked(s).ticks == (s.ticks + 1) % 0x1_0000_0000
  {
    hide Demote, Aging, Account;
    var p := s.current;
    var s0 := s.(ticks := (s.ticks + 1) % TICK_WRAP, task := s.task[p := Account(s.task[p])]);
    DemoteIs(s0, 0);
    AgingIs(Demote(s0), 0, 0);
  }

  /** At every 1000th tick every task has its whole quota again; at any other only the running task's account moves, by one. */
  lemma {:induction false} PeriodReset(s: Sys, x: int)
    requires Inv(s) && Legal(s, TickStep) && !s.task[s.current].kill && Slot(x) && s.task[x].inUse
    ensures var v, v' := s.task[x], Tick(s).task[x];
            if (s.ticks + 1) % 0x1_0000_0000 % 1000 == 0 then v'.used == 0 && !v'.done
            else v'.used == v.used + (if x == s.current && v.quota > 0 then 1 else 0) && (x != s.current ==> v'.done == v.done)
  {
    hide Tick, Legal, Inv;
    TickEffect(s, x);
  }

  // ------------------------------------------------------------------ taking turns

  /**
   A task whose slice ends, with nobody above it who can run and somebody who can on its own queue, makes way
   for the first of those and goes to the tail of the queue.
   */
  lemma {:induction false} HandsOver(s: Sys)
    requires Inner(s) && MayRun(s) && s.task[s.current].timeslice <= 1
    requires OthersIn(s, QIdx(s.task[s.current]), s.current)
    requires forall j :: 0 <= j < QIdx(s.task[s.current]) ==> !OthersIn(s, j, s.current)
    ensures var p, k, s' := s.current, QIdx(s.task[s.current]), Schedule(s);
            var l := Remove(s.q[k], p);
            var i := FirstEligible(s.task, l);
            && i < |l| && s'.current == l[i] && l[i] != p
            && s'.q[k] == l[i + 1..] + [p] + l[..i] + [l[i]] && p in s'.q[k]
  {
    hide Remove, FirstEligible, Inner, Charged, Requeued, OthersIn, Preempts, PickAndSwitch, Picked, QIdx, SelfLoop;
    NextInLine(s);
    PreemptsIff(s);
    SelfLoopIff(s);
    SliceSpent(s);
  }

  /** A task with slice left and nobody above it who can run goes on, with one tick less. */
  lemma {:induction false} GoesOn(s: Sys)
    requires Inner(s) && MayRun(s) && s.task[s.current].timeslice > 1
    requires forall j :: 0 <= j < QIdx(s.task[s.current]) ==> !OthersIn(s, j, s.current)
    ensures var p, s' := s.current, Schedule(s);
            s'.current == p && s'.task == s.task[p := s.task[p].(timeslice := s.task[p].timeslice - 1)]
  {
    hide Remove, FirstEligible, QueueOk, AllQueued, OnlyRuns, Charged, Requeued, OthersIn, Preempts, PickAndSwitch, Picked, QIdx;
    PreemptsIff(s);
    ChargedBase(s);
    ChargedTicks(s);
  }

  lemma {:induction false} SliceSpent(s: Sys)
    requires Inner(s) && MayRun(s) && s.task[s.current].timeslice <= 1
    ensures Charged(s).task[s.current].timeslice <= 0
  {
    hide Remove, FirstEligible, QueueOk, AllQueued, OnlyRuns, Charged;
    ChargedBase(s);
  }

  /** The switch, once the incumbent is at the tail. */
  lemma {:induction false} NextInLine(s: Sys)
    requires Inner(s) && MayRun(s)
    requires OthersIn(s, QIdx(s.task[s.current]), s.current)
    requires forall j :: 0 <= j < QIdx(s.task[s.current]) ==> !OthersIn(s, j, s.current)
    ensures var p, k, s' := s.current, QIdx(s.task[s.current]), PickAndSwitch(Requeued(s));
            var l := Remove(s.q[k], p);
            var i := FirstEligible(s.task, l);
            && i < |l| && s'.current == l[i] && l[i] != p
            && s'.q[k] == l[i + 1..] + [p] + l[..i] + [l[i]] && p in s'.q[k]
  {
    hide Remove, FirstEligible, Inner, Charged, Requeued, OthersIn, QIdx, PickQueue;
    InnerShape(s);
    var p, k, r := s.current, QIdx(s.task[s.current]), Requeued(s);
    var l := Remove(s.q[k], p);
    RequeuedQueues(s);
    OthersShown(s, k);
    var i := FirstEligible(s.task, l);
    assert HasEligible(r.task, r.q[k]);
    FirstQueue(r, k);
    NotIn(s, p, k);
    assert l[i] in l;
    assert (l + [p])[i + 1..] + (l + [p])[..i] + [l[i]] == l[i + 1..] + [p] + l[..i] + [l[i]];
  }

  lemma {:induction false} NotIn(s: Sys, p: int, k: nat)
    requires Inner(s) && k < NR_QUEUES
    ensures p !in Remove(s.q[k], p)
  {
    hide Remove;
    assert QueueOk(s, k);
    RemoveMembers(s.q[k], p);
  }

  lemma {:induction false} OthersShown(s: Sys, k: nat)
    requires Shape(s) && k < NR_QUEUES && OthersIn(s, k, s.current)
    ensures FirstEligible(s.task, Remove(s.q[k], s.current)) < |Remove(s.q[k], s.current)|
  {
  }

  lemma {:induction false} FirstQueue(s: Sys, k: nat)
    requires Shape(s) && k < NR_QUEUES && HasEligible(s.task, s.q[k]) && forall j :: 0 <= j < k ==> !HasEligible(s.task, s.q[j])
    ensures PickQueue(s.task, s.q, 0) == k
  {
    hide HasEligible;
    var r := PickQueue(s.task, s.q, 0);
    assert r <= k;
  }

  // ------------------------------------------------------------------ yield and wait

  /** A user task that yields goes to the top level and starts counting anew; nothing else but places and slices changes. */
  lemma {:induction false} YieldEffect(s: Sys, x: int)
    requires Inv(s) && Legal(s, YieldStep) && Slot(x)
    ensures var v, v' := s.task[x], Yield(s).task[x];
            var user := x == s.current && v.tier == 2;
            && v'.level == (if user && v.level > 0 then 0 else v.level) && v'.contTicks == (if user then 0 else v.contTicks)
            && v' == v.(level := v'.level, contTicks := v'.contTicks, state := v'.state, timeslice := v'.timeslice, curQueue := v'.curQueue)
  {
    hide Schedule, Yielding, Hazard, QueueOk, AllQueued, OnlyRuns, CurrentOk;
    YieldingInner(s);
    ScheduleOutcome(Yielding(s));
    assert Framed(Yielding(s).task[x], Schedule(Yielding(s)).task[x]);
    YieldingIs(s, x);
  }

  lemma {:induction false} YieldingIs(s: Sys, x: int)
    requires Shape(s) && Slot(x)
    ensures var v, v' := s.task[x], Yielding(s).task[x];
            var user := x == s.current && v.tier == 2;
            && v'.level == (if user && v.level > 0 then 0 else v.level) && v'.contTicks == (if user then 0 else v.contTicks)
            && v' == v.(level := v'.level, contTicks := v'.contTicks, state := v'.state, timeslice := v'.timeslice, curQueue := v'.curQueue)
  {
    hide SetLevel;
    var p := s.current;
    var s0 := s.(task := s.task[p := s.task[p].(contTicks := 0)]);
    SetLevelIs(s0, p, 0, x);
    SetLevelIs(s0, p, 0, p);
  }

  /** A task that waits for a child is blocked, and nobody else changes but in place and slice. */
  lemma {:induction false} WaitEffect(s: Sys, x: int)
    requires Inv(s) && Legal(s, WaitStep) && Slot(x)
    ensures var v, v' := s.task[x], WaitChild(s).task[x];
            && (x == s.current ==> v'.state == Waiting)
            && v' == v.(state := v'.state, timeslice := v'.timeslice, curQueue := v'.curQueue)
  {
    hide Schedule, Hazard, QueueOk, AllQueued, OnlyRuns, CurrentOk, Remove;
    WaitsInner(s);
    NoHazard(Waits(s));
    ScheduleOutcome(Waits(s));
    assert Framed(Waits(s).task[x], Schedule(Waits(s)).task[x]);
  }

  // ------------------------------------------------------------------ exit

  /** What the death of task p does to task x: the dead one, its waiting parent, its children, and the rest. */
  ghost predicate Bereaved(v: Task, v': Task, x: int, p: int, parent: int) {
    var woken := x == parent && x != p && v.state == Waiting;
    && (x == p ==> v'.state == Exited && !v'.inherited && v'.saved == 2)
    && (x != p ==> v'.inherited == v.inherited && v'.saved == v.saved)
    && (woken ==> v'.state == Ready || v'.state == Running)
    && v'.level == (if woken && v.tier == 2 then 0 else v.level) && v'.contTicks == (if woken && v.tier == 2 then 0 else v.contTicks)
    && v'.parent == (if v.inUse && v.parent == p then NONE else v.parent)
    && v' == v.(state := v'.state, inherited := v'.inherited, saved := v'.saved, level := v'.level, contTicks := v'.contTicks,
                parent := v'.parent, timeslice := v'.timeslice, curQueue := v'.curQueue)
  }

  lemma {:induction false} WakeParentIs(s: Sys, p: int, x: int)
    requires Shape(s) && Slot(x)
    ensures var v, v' := s.task[x], WakeParent(s, p).task[x];
            if x == p && v.state == Waiting
            then v' == v.(state := Ready, level := if v.tier == 2 then 0 else v.level,
                          contTicks := if v.tier == 2 then 0 else v.contTicks, curQueue := v'.curQueue)
            else v' == v
  {
    hide QIdx;
  }

  lemma {:induction false} OrphanedIs(s: Sys, t: int, x: int)
    requires Shape(s) && Slot(t) && Slot(x)
    ensures var v := s.task[x];
            Orphaned(s, t).task[x] == v.(parent := if v.inUse && v.parent == t then NONE else v.parent,
                                         inherited := x != t && v.inherited, saved := if x == t then 2 else v.saved)
  {
  }

  lemma {:induction false} DyingIs(s: Sys, x: int)
    requires Shape(s) && s.current != IDLE && Slot(x)
    ensures Bereaved(s.task[x], Dying(s).task[x], x, s.current, s.task[s.current].parent)
  {
    hide Dequeue, WakeParent, Orphaned;
    var t, p := s.current, s.task[s.current].parent;
    DequeueSame(s, t);
    var s1 := WithState(Dequeue(s, t), t, Exited);
    WakeParentIs(s1, p, x);
    OrphanedIs(WakeParent(s1, p), t, x);
  }

  lemma {:induction false} BereavedFramed(v: Task, v1: Task, v2: Task, x: int, p: int, parent: int)
    requires Bereaved(v, v1, x, p, parent) && Framed(v1, v2)
    ensures Bereaved(v, v2, x, p, parent)
  {
  }

  /** An exit: the task is gone, a waiting parent may run again and is at the top level, and the children have no parent. */
  lemma {:induction false} ExitEffect(s: Sys, x: int)
    requires Inv(s) && Legal(s, ExitStep) && Slot(x)
    ensures Bereaved(s.task[x], Exit(s).task[x], x, s.current, s.task[s.current].parent)
  {
    hide Schedule, Dying, Hazard, QueueOk, AllQueued, OnlyRuns, CurrentOk, Bereaved;
    DyingInner(s);
    NoHazard(Dying(s));
    ScheduleOutcome(Dying(s));
    DyingIs(s, x);
    BereavedFramed(s.task[x], Dying(s).task[x], Exit(s).task[x], x, s.current, s.task[s.current].parent);
  }

  /** A marked task dies at its next tick, and that tick does nothing else. */
  lemma {:induction false} KillEffect(s: Sys, x: int)
    requires Inv(s) && Legal(s, TickStep) && s.task[s.current].kill && Slot(x)
    ensures var p := s.current;
            Bereaved(if x == p then s.task[x].(kill := false) else s.task[x], Tick(s).task[x], x, p, s.task[p].parent)
  {
    hide Schedule, Dying, Hazard, QueueOk, AllQueued, OnlyRuns, CurrentOk, Bereaved;
    var p := s.current;
    var s1 := s.(ticks := (s.ticks + 1) % TICK_WRAP, task := s.task[p := s.task[p].(kill := false)]);
    KillInner(s, p, false);
    TicksInner(s.(task := s1.task), s1.ticks);
    DyingInner(s1);
    ScheduleOutcome(Dying(s1));
    DyingIs(s1, x);
    BereavedFramed(s1.task[x], Dying(s1).task[x], Tick(s).task[x], x, p, s.task[p].parent);
  }

  // ------------------------------------------------------------------ slots and the mutex

  /** Reaping frees the slot, and SYS_KILL marks the task; neither touches anybody else. */
  lemma {:induction false} SlotEffect(s: Sys, t: int, x: int)
    requires Shape(s) && Slot(t) && 0 <= x <= IDLE
    ensures var r := Apply(s, ReapStep(t)); !r.task[t].inUse && (x != t ==> r.task[x] == s.task[x]) && r.q == s.q && r.mutex == s.mutex
    ensures Apply(s, KillStep(t)) == s.(task := s.task[t := s.task[t].(kill := true)])
  {
  }

  /** A free lock is taken, by mutex_lock and by mutex_trylock; a held one makes mutex_trylock do nothing. */
  lemma {:induction false} LockEffect(s: Sys)
    requires Shape(s)
    ensures !s.mutex.locked ==>
              && Lock(s).mutex == TryLock(s).mutex == s.mutex.(locked := true, holder := s.current)
              && TryLock(s).task == s.task && !Lock(s).task[s.current].inLock
    ensures s.mutex.locked ==> TryLock(s) == s
  {
  }

  /** A held lock blocks the caller at the front of the wait queue. */
  lemma {:induction false} BlockEffect(s: Sys)
    requires Inv(s) && Legal(s, LockStep) && s.mutex.locked
    ensures Lock(s).mutex == s.mutex.(waitq := [s.current] + s.mutex.waitq)
    ensures Lock(s).task[s.current].state == Waiting && Lock(s).task[s.current].inLock
  {
    hide Schedule, Hazard, QueueOk, AllQueued, OnlyRuns, CurrentOk, Boost, Remove;
    BlockedInner(s);
    NoHazard(Blocked(s));
    ScheduleOutcome(Blocked(s));
    assert Framed(Blocked(s).task[s.current], Schedule(Blocked(s)).task[s.current]);
  }

  /** mutex_unlock releases the lock and makes the front waiter, if any, ready on its queue. */
  lemma {:induction false} UnlockEffect(s: Sys)
    requires Inv(s)
    ensures var w, s' := s.mutex.waitq, Unlock(s);
            && s'.mutex == Mutex(false, NONE, if w == [] then [] else w[1..], s.mutex.inherit)
            && (w != [] ==> Slot(w[0]) && s'.task[w[0]].state == Ready && w[0] in s'.q[QIdx(s'.task[w[0]])])
  {
    hide Restore, QueueOk, AllQueued, OnlyRuns, CurrentOk;
    var w := s.mutex.waitq;
    RestoreInner(s);
    if w != [] { assert IsWaiter(s, w[0]); }
  }
}
