/** Runs from boot after which a natural promise of the scheduler or the mutex fails. */
module SchedWitness {
  import opened Tasks
  import opened SchedInv
  import opened SchedSteps
  import opened SchedRuns
  import opened SchedQuota
  import opened SchedMutex

  const FREE_SLOT := Task(false, Running, 0, TIER_KERNEL, 0, 0, 0, 0, 0, false, false, TIER_KERNEL, NONE, false, false)
  const BOOT_IDLE := FREE_SLOT.(state := Ready, timeslice := TASK_TIMESLICE)

  /** A system of three tasks, with tasks on the queues of the system tier and of the user tier's top level only. */
  function Three(a: Task, b: Task, c: Task, q1: seq<int>, q2: seq<int>, current: int, m: Mutex, ticks: nat): (s: Sys)
    requires 0 <= current <= IDLE && NONE <= m.holder <= IDLE
    ensures Shape(s)
  {
    Sys([[], q1, q2, [], []],
        seq(MAX_TASKS + 1, i => if i == 0 then a else if i == 1 then b else if i == 2 then c
                                else if i == IDLE then BOOT_IDLE else FREE_SLOT),
        current, m, ticks)
  }

  /** As create_task or sys_fork leaves a slot on its queue. */
  function Fresh(tier: Tier, quota: nat, parent: int): Task {
    var t := Task(true, Ready, -1, tier, 0, 0, TASK_TIMESLICE, quota, 0, false, false, TIER_KERNEL, parent, false, false);
    t.(curQueue := QIdx(t))
  }

  function Started(t: Task): Task { t.(state := Running, timeslice := Slice(t)) }

  // ------------------------------------------------------------------ what schedule does in such systems

  lemma {:induction false} FirstIs(task: seq<Task>, l: seq<int>, i: nat)
    requires i <= |l| && (forall j :: 0 <= j < i ==> !Eligible(task, l[j])) && (i < |l| ==> Eligible(task, l[i]))
    ensures FirstEligible(task, l) == i
  {
  }

  /** The queue of a pick: system tasks first, then user tasks, then nobody. */
  lemma {:induction false} PickIs(s: Sys)
    requires Shape(s) && s.q[0] == s.q[3] == s.q[4] == []
    ensures PickQueue(s.task, s.q, 0) == if HasEligible(s.task, s.q[1]) then 1 else if HasEligible(s.task, s.q[2]) then 2 else NR_QUEUES
    ensures PickQueue(s.task, s.q, 2) == if HasEligible(s.task, s.q[2]) then 2 else NR_QUEUES
  {
    assert !HasEligible(s.task, []);
    var k0, k2 := PickQueue(s.task, s.q, 0), PickQueue(s.task, s.q, 2);
    assert k0 != 0 && k0 != 3 && k0 != 4 && k2 != 3 && k2 != 4;
  }

  lemma {:induction false} AppendRun(s: Sys, steps: seq<Step>, step: Step)
    requires Shape(s) && LegalRun(s, steps) && Legal(Run(s, steps), step)
    ensures LegalRun(s, steps + [step]) && Run(s, steps + [step]) == Apply(Run(s, steps), step)
    decreases |steps|
  {
    hide Legal, Apply;
    if steps == [] {
      assert steps + [step] == [step] && [step][1..] == [];
    } else {
      AppendRun(Apply(s, steps[0]), steps[1..], step);
      assert (steps + [step])[1..] == steps[1..] + [step];
    }
  }

  /** s is reached by the steps, all of them legal. */
  ghost predicate Reaches(inherit: bool, steps: seq<Step>, s: Sys) {
    LegalRun(Boot(inherit), steps) && Run(Boot(inherit), steps) == s
  }

  lemma {:induction false} Extend(inherit: bool, steps: seq<Step>, s: Sys, step: Step, s': Sys)
    requires Reaches(inherit, steps, s) && Shape(s) && Legal(s, step) && Apply(s, step) == s'
    ensures Reaches(inherit, steps + [step], s')
  {
    hide Legal, Apply, LegalRun, Run, Boot;
    AppendRun(Boot(inherit), steps, step);
  }

  lemma {:induction false} BootIs(inherit: bool)
    ensures Reaches(inherit, [], Three(FREE_SLOT, FREE_SLOT, FREE_SLOT, [], [], IDLE, Mutex(false, NONE, [], inherit), 0))
  {
    assert Boot(inherit) == Three(FREE_SLOT, FREE_SLOT, FREE_SLOT, [], [], IDLE, Mutex(false, NONE, [], inherit), 0);
  }

  /** The two systems agree slot by slot and queue by queue. */
  ghost predicate Same(s: Sys, s': Sys) {
    && Shape(s) && Shape(s') && s.current == s'.current && s.mutex == s'.mutex && s.ticks == s'.ticks
    && (forall t :: 0 <= t <= IDLE ==> s.task[t] == s'.task[t])
    && (forall k :: 0 <= k < NR_QUEUES ==> s.q[k] == s'.q[k])
  }

  lemma {:induction false} SameIs(s: Sys, s': Sys)
    requires Same(s, s')
    ensures s == s'
  {
    assert s.task == s'.task && s.q == s'.q;
  }

  /** One legal step from one state to the next. */
  ghost predicate Goes(s: Sys, step: Step, s': Sys) {
    Shape(s) && Legal(s, step) && Apply(s, step) == s'
  }

  /** create_task or sys_fork on a free slot. */
  lemma {:induction false} Made(s: Sys, t: int, tier: Tier, quota: nat, parent: int, s': Sys)
    requires Shape(s) && Legal(s, CreateStep(t, tier, quota, parent))
    requires var v := Fresh(tier, quota, parent); Same(s.(task := s.task[t := v], q := s.q[v.curQueue := s.q[v.curQueue] + [t]]), s')
    ensures Goes(s, CreateStep(t, tier, quota, parent), s')
  {
    var v := Fresh(tier, quota, parent);
    var r := s.(task := s.task[t := v], q := s.q[v.curQueue := s.q[v.curQueue] + [t]]);
    SameIs(r, s');
    assert Create(s, t, tier, quota, parent).task == r.task;
  }

  ghost predicate Low(s: Sys) {
    Shape(s) && s.q[0] == s.q[3] == s.q[4] == []
  }

  /** A pick takes position i of queue k. */
  ghost predicate Takes(s: Sys, k: nat, i: nat) {
    && Low(s) && 1 <= k <= 2 && i < |s.q[k]| && FirstEligible(s.task, s.q[k]) == i
    && (k == 2 ==> !HasEligible(s.task, s.q[1])) && Slot(s.q[k][i])
  }

  /** Leaving the incumbent for the task that a pick takes. */
  function Chosen(s: Sys, k: nat, i: nat): (s': Sys)
    requires Shape(s) && k < NR_QUEUES && i < |s.q[k]| && Slot(s.q[k][i])
    ensures Shape(s')
  {
    var t := s.q[k][i];
    s.(q := s.q[k := Rotated(s.q[k], i)], current := t, task := s.task[t := Started(s.task[t])])
  }

  lemma {:induction false} Chooses(s: Sys, k: nat, i: nat)
    requires Takes(s, k, i)
    ensures PickAndSwitch(s) == Chosen(s, k, i) && Picked(s, 0) == s.q[k][i]
  {
    PickIs(s);
    hide FirstEligible, PickQueue;
  }

  /** The switch away from a task that died. */
  lemma {:induction false} LeavesFor(s: Sys, s': Sys)
    requires Takes(s, 2, 0) && s.current != IDLE && s.task[s.current].state == Exited && Same(Chosen(s, 2, 0), s')
    ensures Schedule(s) == s'
  {
    hide FirstEligible, PickQueue, PickAndSwitch, Rotated;
    Chooses(s, 2, 0);
    SameIs(Chosen(s, 2, 0), s');
  }

  lemma {:induction false} IdleRuns(s: Sys, k: nat, i: nat, s': Sys)
    requires Takes(s, k, i) && s.current == IDLE && Same(Chosen(s, k, i), s')
    ensures Goes(s, IdleStep, s')
  {
    hide FirstEligible, PickQueue, PickAndSwitch, Rotated;
    Chooses(s, k, i);
    SameIs(Chosen(s, k, i), s');
  }

  lemma {:induction false} Locks(s: Sys, s': Sys)
    requires Shape(s) && s.current != IDLE && !s.mutex.locked && !s.task[s.current].inLock
    requires Same(s.(mutex := s.mutex.(locked := true, holder := s.current)), s')
    ensures Goes(s, LockStep, s')
  {
    SameIs(s.(mutex := s.mutex.(locked := true, holder := s.current)), s');
    assert Acquired(s).task == s.task;
  }

  /** A waiter leaves the CPU for the task that a pick takes. */
  lemma {:induction false} Blocks(s: Sys, l: seq<int>, r: Sys, s': Sys)
    requires Shape(s) && s.current != IDLE && s.mutex.locked && !s.mutex.inherit && s.task[s.current].curQueue == 2
    requires Remove(s.q[2], s.current) == l && s.current !in l
    requires var p := s.current;
             Same(s.(q := s.q[2 := l], task := s.task[p := s.task[p].(state := Waiting, inLock := true)],
                     mutex := s.mutex.(waitq := [p] + s.mutex.waitq)), r)
    requires Takes(r, 2, 0) && Same(Chosen(r, 2, 0), s')
    ensures Goes(s, LockStep, s')
  {
    hide FirstEligible, PickQueue, PickAndSwitch, Rotated, HasEligible;
    var p := s.current;
    SameIs(s.(q := s.q[2 := l], task := s.task[p := s.task[p].(state := Waiting, inLock := true)],
              mutex := s.mutex.(waitq := [p] + s.mutex.waitq)), r);
    assert Blocked(s) == r;
    assert r.q[2 := Remove(r.q[2], p)] == r.q;
    Chooses(r, 2, 0);
    SameIs(Chosen(r, 2, 0), s');
  }

  /** The incumbent is a user task at the top level, and so is everybody queued. */
  ghost predicate UsersOnly(s: Sys) {
    && Low(s) && s.q[1] == [] && Slot(s.current)
    && (forall t <- s.q[2] :: Slot(t) && QIdx(s.task[t]) == 2)
    && var v := s.task[s.current];
       v.inUse && v.state != Waiting && v.state != Exited && v.tier == TIER_USER && v.level == 0 && !v.inLock && v.curQueue == 2 && !v.kill
  }

  /** The incumbent off its queue, ready, with one unit less of its slice. */
  function Spent(s: Sys): (s': Sys)
    requires Shape(s)
    ensures Shape(s')
  {
    var p := s.current;
    s.(q := s.q[2 := Remove(s.q[2], p)],
       task := s.task[p := s.task[p].(state := Ready, contTicks := 0, timeslice := s.task[p].timeslice - 1)])
  }

  lemma {:induction false} YieldingIs(s: Sys)
    requires UsersOnly(s)
    ensures Yielding(s) == s.(task := s.task[s.current := s.task[s.current].(contTicks := 0, state := Ready)])
  {
  }

  lemma {:induction false} SpentIs(s: Sys)
    requires UsersOnly(s) && s.task[s.current].timeslice >= 1
    ensures Charged(Yielding(s)) == Spent(s) && !Preempts(Yielding(s))
  {
    hide PickQueue, FirstEligible, HasEligible, Remove, QIdx;
    YieldingIs(s);
    var p, y := s.current, Yielding(s);
    hide Yielding;
    assert Charged(y).task == Spent(s).task;
    PickIs(Spent(s));
    UserQueue(s);
    PickedFrom(Spent(s));
  }

  lemma {:induction false} UserQueue(s: Sys)
    requires UsersOnly(s)
    ensures QIdx(s.task[s.current]) == 2 && QIdx(Yielding(s).task[s.current]) == 2
    ensures forall t <- Spent(s).q[2] :: Slot(t) && QIdx(Spent(s).task[t]) == 2
  {
    RemoveKeeps(s.q[2], s.current);
  }

  lemma {:induction false} RemoveKeeps(l: seq<int>, t: int)
    ensures forall x <- Remove(l, t) :: x in l
  {
    if l != [] { RemoveKeeps(l[1..], t); }
  }

  lemma {:induction false} PickedFrom(s: Sys)
    requires Low(s) && s.q[1] == []
    ensures Picked(s, 0) == NONE || Picked(s, 0) in s.q[2]
  {
    PickIs(s);
    assert !HasEligible(s.task, []);
  }

  /** A yield with slice left: the task goes on. */
  lemma {:induction false} YieldGoesOn(s: Sys, s': Sys)
    requires UsersOnly(s) && s.task[s.current].timeslice > 1 && Same(Spent(s), s')
    ensures Goes(s, YieldStep, s')
  {
    YieldingIs(s);
    SpentIs(s);
    SameIs(Spent(s), s');
    hide Yielding, Charged, Preempts, PickAndSwitch, Requeued, SelfLoop, OthersIn;
  }

  /** A yield at the end of the slice: the next user task runs. */
  lemma {:induction false} YieldSwitches(s: Sys, s': Sys)
    requires UsersOnly(s) && s.task[s.current].timeslice == 1
    requires var l := Remove(s.q[2], s.current); s.current !in l && l != [] && FirstEligible(s.task, l) == 0
    requires var r := Spent(s); Same(Chosen(r.(q := r.q[2 := r.q[2] + [s.current]]), 2, 0), s')
    ensures Goes(s, YieldStep, s')
  {
    var p, y, r, l := s.current, Yielding(s), Spent(s), Remove(s.q[2], s.current);
    var r' := r.(q := r.q[2 := l + [p]]);
    YieldingIs(s);
    SpentIs(s);
    UserQueue(s);
    assert Requeued(y) == r' by { RequeuedIs(s); }
    assert l[0] in l && Eligible(r'.task, l[0]);
    FirstIs(r'.task, l + [p], 0);
    Chooses(r', 2, 0);
    SameIs(Chosen(r', 2, 0), s');
    EligibleSame(s.task, y.task, l);
    assert OthersIn(y, 2, p);
    hide Yielding, Charged, Preempts, PickAndSwitch, Requeued, SelfLoop, OthersIn, Spent, Chosen;
  }

  lemma {:induction false} RequeuedIs(s: Sys)
    requires UsersOnly(s) && s.task[s.current].timeslice == 1
    ensures var r := Spent(s); Requeued(Yielding(s)) == r.(q := r.q[2 := r.q[2] + [s.current]])
  {
    hide Yielding, Charged, Remove, Preempts;
    SpentIs(s);
    UserQueue(s);
    var p, c := s.current, Charged(Yielding(s));
    assert c.task[p].state == Ready && c.task[p].curQueue == 2;
    assert c.task[p := c.task[p].(state := Ready)] == c.task;
    assert c.task[p := c.task[p].(curQueue := 2)] == c.task;
    assert QIdx(c.task[p]) == 2;
  }

  lemma {:induction false} More(inherit: bool, steps: seq<Step>, n: nat, s: Sys, s': Sys)
    requires n < |steps| && Reaches(inherit, steps[..n], s) && Goes(s, steps[n], s')
    ensures Reaches(inherit, steps[..n + 1], s')
  {
    hide Reaches, Legal, Apply;
    Extend(inherit, steps[..n], s, steps[n], s');
    assert steps[..n + 1] == steps[..n] + [steps[n]];
  }

  // ------------------------------------------------------------------ two tasks: the first starts and forks the second

  const USER := Fresh(TIER_USER, 0, NONE)
  const KID := Fresh(TIER_USER, 0, 0)
  const SPENT := USER.(timeslice := 0)

  function Waiter(t: Task): Task { t.(state := Waiting, timeslice := 3, inLock := true) }

  function Held(holder: int, w: seq<int>): Mutex { Mutex(true, holder, w, false) }

  function Loose(w: seq<int>): Mutex { Mutex(false, NONE, w, false) }

  function Users(a: Task, b: Task, c: Task, q: seq<int>, current: int, m: Mutex): (s: Sys)
    requires 0 <= current <= IDLE && NONE <= m.holder <= IDLE
    ensures Shape(s)
  {
    Three(a, b, c, [], q, current, m, 0)
  }

  function U0(inherit: bool): Sys { Users(FREE_SLOT, FREE_SLOT, FREE_SLOT, [], IDLE, Mutex(false, NONE, [], inherit)) }
  function U1(inherit: bool): Sys { Users(USER, FREE_SLOT, FREE_SLOT, [0], IDLE, Mutex(false, NONE, [], inherit)) }
  function U2(inherit: bool): Sys { Users(Started(USER), FREE_SLOT, FREE_SLOT, [], 0, Mutex(false, NONE, [], inherit)) }
  function U3(inherit: bool): Sys { Users(Started(USER), KID, FREE_SLOT, [1], 0, Mutex(false, NONE, [], inherit)) }

  const STARTS: seq<Step> := [CreateStep(0, TIER_USER, 0, NONE), IdleStep, CreateStep(1, TIER_USER, 0, 0)]

  lemma {:induction false} Creates0(inherit: bool)
    ensures Goes(U0(inherit), STARTS[0], U1(inherit))
  {
    Made(U0(inherit), 0, TIER_USER, 0, NONE, U1(inherit));
  }

  lemma {:induction false} Starts0(inherit: bool)
    ensures Goes(U1(inherit), STARTS[1], U2(inherit))
  {
    FirstIs(U1(inherit).task, [0], 0);
    IdleRuns(U1(inherit), 2, 0, U2(inherit));
  }

  lemma {:induction false} Forks1(inherit: bool)
    ensures Goes(U2(inherit), STARTS[2], U3(inherit))
  {
    Made(U2(inherit), 1, TIER_USER, 0, 0, U3(inherit));
  }

  lemma {:induction false} ReachesForked(inherit: bool, steps: seq<Step>)
    requires |steps| >= 3 && steps[..3] == STARTS
    ensures Reaches(inherit, steps[..3], U3(inherit))
  {
    hide Reaches, Goes, U1, U2, U3, Boot, LegalRun, Run;
    assert steps[0] == STARTS[0] && steps[1] == STARTS[1] && steps[2] == STARTS[2];
    BootIs(inherit);
    assert steps[..0] == [];
    Creates0(inherit);
    More(inherit, steps, 0, U0(inherit), U1(inherit));
    Starts0(inherit);
    More(inherit, steps, 1, U1(inherit), U2(inherit));
    Forks1(inherit);
    More(inherit, steps, 2, U2(inherit), U3(inherit));
  }

  lemma {:induction false} RemoveLast(a: int, b: int, c: int)
    requires a != c && b != c
    ensures Remove([a, b, c], c) == [a, b] && Remove([a, c], c) == [a]
  {
    assert [a, b, c][1..] == [b, c] && [b, c][1..] == [c] && [a, c][1..] == [c] && [c][1..] == [];
    assert Remove([c], c) == [];
  }

  // ------------------------------------------------------------------ a lost wake-up

  const MARKED := Waiter(KID).(state := Ready, kill := true)

  function W4(): Sys { Users(Started(USER), KID, KID, [1, 2], 0, Loose([])) }
  function W5(): Sys { Users(Started(USER), KID, KID, [1, 2], 0, Held(0, [])) }
  function W6(): Sys { Users(USER.(timeslice := 2), KID, KID, [1, 2], 0, Held(0, [])) }
  function W7(): Sys { Users(USER.(timeslice := 1), KID, KID, [1, 2], 0, Held(0, [])) }
  function W8(): Sys { Users(SPENT, Started(KID), KID, [2, 0, 1], 1, Held(0, [])) }
  function W9(): Sys { Users(SPENT, Waiter(KID), Started(KID), [0, 2], 2, Held(0, [1])) }
  function W10(): Sys { Users(Started(USER), Waiter(KID), Waiter(KID), [], 0, Held(0, [2, 1])) }
  function W11(): Sys { Users(Started(USER), Waiter(KID), Waiter(KID).(state := Ready), [2], 0, Loose([1])) }
  function W12(): Sys { Users(Started(USER), Waiter(KID), MARKED, [2], 0, Loose([1])) }
  function W13(): Sys {
    Users(Started(USER).(state := Exited, saved := TIER_USER), Waiter(USER), MARKED.(state := Running, parent := NONE), [], 2, Loose([1]))
  }

  lemma {:induction false} Forks2()
    ensures Goes(U3(false), CreateStep(2, TIER_USER, 0, 0), W4())
  {
    Made(U3(false), 2, TIER_USER, 0, 0, W4());
  }

  lemma {:induction false} Locks0()
    ensures Goes(W4(), LockStep, W5())
  {
    Locks(W4(), W5());
  }

  lemma {:induction false} Yields0()
    ensures Goes(W5(), YieldStep, W6()) && Goes(W6(), YieldStep, W7())
  {
    hide Goes;
    YieldGoesOn(W5(), W6());
    YieldGoesOn(W6(), W7());
  }

  lemma {:induction false} YieldsTo1()
    ensures Goes(W7(), YieldStep, W8())
  {
    FirstIs(W7().task, [1, 2], 0);
    YieldSwitches(W7(), W8());
  }

  lemma {:induction false} Blocks1()
    ensures Goes(W8(), LockStep, W9())
  {
    hide Goes;
    var r := Users(SPENT, Waiter(KID), KID, [2, 0], 1, Held(0, [1]));
    RemoveLast(2, 0, 1);
    FirstIs(r.task, [2, 0], 0);
    Blocks(W8(), [2, 0], r, W9());
  }

  lemma {:induction false} Blocks2()
    ensures Goes(W9(), LockStep, W10())
  {
    hide Goes;
    var r := Users(SPENT, Waiter(KID), Waiter(KID), [0], 2, Held(0, [2, 1]));
    RemoveLast(0, 1, 2);
    FirstIs(r.task, [0], 0);
    Blocks(W9(), [0], r, W10());
  }

  lemma {:induction false} Unlocks0()
    ensures Goes(W10(), UnlockStep, W11())
  {
    var s := W10();
    assert [2, 1][1..] == [1] && Restore(s) == s;
    SameIs(Unlock(s), W11());
  }

  lemma {:induction false} Kills2()
    ensures Goes(W11(), KillStep(2), W12())
  {
    SameIs(MarkKill(W11(), 2), W12());
  }

  /** W12 once task 0 is dead, before the switch. */
  function Dead0(): Sys {
    Users(Started(USER).(state := Exited, saved := TIER_USER), Waiter(USER), MARKED.(parent := NONE), [2], 0, Loose([1]))
  }

  lemma {:induction false} Dies0()
    ensures Dying(W12()) == Dead0()
  {
    SameIs(Dying(W12()), Dead0());
  }

  lemma {:induction false} Exits0()
    ensures Goes(W12(), ExitStep, W13())
  {
    hide Dying, Schedule;
    Dies0();
    FirstIs(Dead0().task, [2], 0);
    LeavesFor(Dead0(), W13());
  }

  /** The first task forks two, takes the lock and spends its slice; they block, and the one that is woken is marked and orphaned. */
  const TO_LOST_WAKEUP: seq<Step> :=
    STARTS + [CreateStep(2, TIER_USER, 0, 0), LockStep, YieldStep, YieldStep, YieldStep, LockStep, LockStep,
              UnlockStep, KillStep(2), ExitStep]

  lemma {:induction false} ReachesSpent()
    ensures Reaches(false, TO_LOST_WAKEUP[..8], W8())
  {
    hide Reaches, Goes, U3, W4, W5, W6, W7, W8;
    var steps := TO_LOST_WAKEUP;
    ReachesForked(false, steps);
    Forks2();
    More(false, steps, 3, U3(false), W4());
    Locks0();
    More(false, steps, 4, W4(), W5());
    Yields0();
    More(false, steps, 5, W5(), W6());
    More(false, steps, 6, W6(), W7());
    YieldsTo1();
    More(false, steps, 7, W7(), W8());
  }

  lemma {:induction false} ReachesMarked()
    ensures Reaches(false, TO_LOST_WAKEUP, W13())
  {
    hide Reaches, Goes, W8, W9, W10, W11, W12, W13;
    var steps := TO_LOST_WAKEUP;
    ReachesSpent();
    Blocks1();
    More(false, steps, 8, W8(), W9());
    Blocks2();
    More(false, steps, 9, W9(), W10());
    Unlocks0();
    More(false, steps, 10, W10(), W11());
    Kills2();
    More(false, steps, 11, W11(), W12());
    Exits0();
    More(false, steps, 12, W12(), W13());
    assert steps[..13] == steps;
  }

  lemma {:induction false} MarkedMutex()
    ensures MutexInv(W13()) && LosesWakeup(W13())
  {
    var s := W13();
    assert forall t :: !ReadyTask(s, t);
    assert forall t :: RunningTask(s, t) ==> t == 2;
    assert RunningTask(s, 2) && Retrying(s, 2);
    assert forall t :: BlockedInLock(s, t) ==> t == 1;
  }

  lemma {:induction false} MarkedTick()
    requires Inv(W13())
    ensures Legal(W13(), TickStep)
  {
    hide Schedule, Dying, Inner;
    var s := W13();
    var s1 := s.(ticks := 1, task := s.task[2 := s.task[2].(kill := false)]);
    KillInner(s, 2, false);
    TicksInner(s.(task := s1.task), 1);
    DyingInner(s1);
    NoHazard(Dying(s1));
  }

  /** A legal run from boot whose next tick leaves task 1 waiting for a mutex nobody holds or will release. */
  lemma {:induction false} WakeupCanBeLost()
    ensures LegalRun(Boot(false), TO_LOST_WAKEUP)
    ensures var s := Run(Boot(false), TO_LOST_WAKEUP);
            && MutexInv(s) && Legal(s, TickStep) && LosesWakeup(s)
            && !MutexInv(Tick(s))
  {
    hide Inv, MutexInv, LosesWakeup, LegalRun, Run, Legal, Boot, W13;
    ReachesMarked();
    BootInv(false);
    RunInv(Boot(false), TO_LOST_WAKEUP);
    MarkedMutex();
    MarkedTick();
    StepMutex(W13(), TickStep);
  }

  // ------------------------------------------------------------------ an exit that wakes a mutex waiter

  function P4(): Sys { Users(USER.(timeslice := 2), KID, FREE_SLOT, [1], 0, Loose([])) }
  function P5(): Sys { Users(USER.(timeslice := 1), KID, FREE_SLOT, [1], 0, Loose([])) }
  function P6(): Sys { Users(SPENT, Started(KID), FREE_SLOT, [0, 1], 1, Loose([])) }
  function P7(): Sys { Users(SPENT, Started(KID), FREE_SLOT, [0, 1], 1, Held(1, [])) }
  function P8(): Sys { Users(SPENT, KID.(timeslice := 2), FREE_SLOT, [0], 1, Held(1, [])) }
  function P9(): Sys { Users(SPENT, KID.(timeslice := 1), FREE_SLOT, [0], 1, Held(1, [])) }
  function P10(): Sys { Users(Started(USER), KID.(timeslice := 0), FREE_SLOT, [1, 0], 0, Held(1, [])) }
  function P11(): Sys { Users(Waiter(USER), Started(KID), FREE_SLOT, [], 1, Held(1, [0])) }

  lemma {:induction false} ParentYields()
    ensures Goes(U3(false), YieldStep, P4()) && Goes(P4(), YieldStep, P5())
  {
    hide Goes;
    assert Remove([1], 0) == [1];
    YieldGoesOn(U3(false), P4());
    YieldGoesOn(P4(), P5());
  }

  lemma {:induction false} ParentMakesWay()
    ensures Goes(P5(), YieldStep, P6()) && Goes(P6(), LockStep, P7())
  {
    hide Goes;
    assert Remove([1], 0) == [1];
    FirstIs(P5().task, [1], 0);
    YieldSwitches(P5(), P6());
    Locks(P6(), P7());
  }

  lemma {:induction false} ChildYields()
    ensures Goes(P7(), YieldStep, P8()) && Goes(P8(), YieldStep, P9())
  {
    hide Goes;
    RemoveLast(0, 0, 1);
    assert Remove([0], 1) == [0];
    YieldGoesOn(P7(), P8());
    YieldGoesOn(P8(), P9());
  }

  lemma {:induction false} ChildMakesWay()
    ensures Goes(P9(), YieldStep, P10())
  {
    assert Remove([0], 1) == [0];
    FirstIs(P9().task, [0], 0);
    YieldSwitches(P9(), P10());
  }

  lemma {:induction false} ParentBlocks()
    ensures Goes(P10(), LockStep, P11())
  {
    hide Goes;
    var r := Users(Waiter(USER), KID.(timeslice := 0), FREE_SLOT, [1], 0, Held(1, [0]));
    RemoveLast(1, 1, 0);
    FirstIs(r.task, [1], 0);
    Blocks(P10(), [1], r, P11());
  }

  /** The child of the first task takes the lock, and the first task blocks on it. */
  const TO_BLOCKED_PARENT: seq<Step> :=
    STARTS + [YieldStep, YieldStep, YieldStep, LockStep, YieldStep, YieldStep, YieldStep, LockStep]

  lemma {:induction false} ReachesBlockedParent()
    ensures Reaches(false, TO_BLOCKED_PARENT, P11())
  {
    hide Reaches, Goes, U3, P4, P5, P6, P7, P8, P9, P10, P11;
    var steps := TO_BLOCKED_PARENT;
    ReachesForked(false, steps);
    ParentYields();
    More(false, steps, 3, U3(false), P4());
    More(false, steps, 4, P4(), P5());
    ParentMakesWay();
    More(false, steps, 5, P5(), P6());
    More(false, steps, 6, P6(), P7());
    ChildYields();
    More(false, steps, 7, P7(), P8());
    More(false, steps, 8, P8(), P9());
    ChildMakesWay();
    More(false, steps, 9, P9(), P10());
    ParentBlocks();
    More(false, steps, 10, P10(), P11());
    assert steps[..11] == steps;
  }

  /** P11 once the child is dead, before the switch: its parent is queued and still waits. */
  function Dead1(): Sys {
    Users(Waiter(USER).(state := Ready), Started(KID).(state := Exited, saved := TIER_USER), FREE_SLOT, [0], 1, Held(1, [0]))
  }

  function P12(): Sys {
    Users(Waiter(USER).(state := Running), Started(KID).(state := Exited, saved := TIER_USER), FREE_SLOT, [], 0, Held(1, [0]))
  }

  lemma {:induction false} Dies1()
    ensures Dying(P11()) == Dead1()
  {
    SameIs(Dying(P11()), Dead1());
  }

  lemma {:induction false} ChildExits()
    ensures Exit(P11()) == P12()
  {
    hide Dying, Schedule;
    Dies1();
    FirstIs(Dead1().task, [0], 0);
    LeavesFor(Dead1(), P12());
  }

  /** A legal run from boot whose next exit leaves task 0 running and in the wait queue. */
  lemma {:induction false} ExitCanWakeWaiter()
    ensures LegalRun(Boot(false), TO_BLOCKED_PARENT)
    ensures var s := Run(Boot(false), TO_BLOCKED_PARENT);
            && Inv(s) && Free(s) && !ParentOk(s)
            && Exit(s).current == 0 && Exit(s).task[0].state == Running && 0 in Exit(s).mutex.waitq && !Inv(Exit(s))
  {
    hide Inv, LegalRun, Run, Boot, Exit;
    ReachesBlockedParent();
    BootInv(false);
    RunInv(Boot(false), TO_BLOCKED_PARENT);
    ChildExits();
    ExitInvIff(P11());
  }

  // ------------------------------------------------------------------ ticks of a system-tier task

  /** A system-tier or critical task runs, and a tick changes no level and resets no quota. */
  ghost predicate SystemRuns(s: Sys) {
    && Low(s) && Slot(s.current) && s.ticks < 250
    && (forall t <- s.q[1] :: Slot(t) && QIdx(s.task[t]) == 1) && (forall t <- s.q[2] :: Slot(t) && QIdx(s.task[t]) == 2)
    && var v := s.task[s.current];
       && v.inUse && v.state != Waiting && v.state != Exited && !v.kill && 1 <= v.curQueue <= 2
       && (v.tier == TIER_SYSTEM || v.tier == TIER_CRITICAL)
  }

  /** The tick accounted, the incumbent off its queue and one unit of its slice spent. */
  function Counted(s: Sys): (s': Sys)
    requires Shape(s) && 0 <= s.current <= IDLE && 1 <= s.task[s.current].curQueue <= 2
    ensures Shape(s')
  {
    var p, k := s.current, s.task[s.current].curQueue;
    var v := Account(s.task[p]);
    s.(ticks := s.ticks + 1, q := s.q[k := Remove(s.q[k], p)], task := s.task[p := v.(timeslice := v.timeslice - 1)])
  }

  lemma {:induction false} TickedIs(s: Sys)
    requires SystemRuns(s)
    ensures BeforeTick(s) == s.(ticks := s.ticks + 1, task := s.task[s.current := Account(s.task[s.current])])
  {
    hide Aging, QuotaReset, SetLevel, QIdx, Dying;
  }

  lemma {:induction false} CountedQueues(s: Sys)
    requires SystemRuns(s)
    ensures var c := Counted(s);
            && Low(c) && (forall t <- c.q[1] :: Slot(t) && QIdx(c.task[t]) == 1) && (forall t <- c.q[2] :: Slot(t) && QIdx(c.task[t]) == 2)
    ensures QIdx(s.task[s.current]) == 1
  {
    RemoveKeeps(s.q[1], s.current);
    RemoveKeeps(s.q[2], s.current);
  }

  lemma {:induction false} CountedIs(s: Sys)
    requires SystemRuns(s) && s.task[s.current].timeslice >= 1
    ensures Charged(BeforeTick(s)) == Counted(s) && !Preempts(BeforeTick(s)) && BeforeTick(s).current == s.current
  {
    hide HasEligible, FirstEligible, PickQueue, Remove, BeforeTick, QIdx;
    TickedIs(s);
    var b, c := BeforeTick(s), Counted(s);
    assert Charged(b).task == c.task;
    CountedQueues(s);
    PickedLow(c);
    AccountQueue(s.task[s.current]);
  }

  lemma {:induction false} AccountQueue(v: Task)
    ensures QIdx(Account(v)) == QIdx(v)
  {
  }

  lemma {:induction false} PickedLow(s: Sys)
    requires Low(s)
    ensures Picked(s, 0) == NONE || Picked(s, 0) in s.q[1] || Picked(s, 0) in s.q[2]
  {
    PickIs(s);
  }

  /** A tick with slice left: the task goes on. */
  lemma {:induction false} TickGoesOn(s: Sys, s': Sys)
    requires SystemRuns(s) && s.task[s.current].timeslice > 1 && Same(Counted(s), s')
    ensures Goes(s, TickStep, s')
  {
    hide BeforeTick, Charged, Preempts, PickAndSwitch, Requeued, SelfLoop, OthersIn, HasEligible, FirstEligible, QIdx;
    TickedIs(s);
    CountedIs(s);
    SameIs(Counted(s), s');
  }

  /** The incumbent's slice is over and it is at the tail of its queue. */
  function Back(s: Sys): (s': Sys)
    requires Shape(s) && 0 <= s.current <= IDLE && 1 <= s.task[s.current].curQueue <= 2
    ensures Shape(s')
  {
    var p, c := s.current, Counted(s);
    c.(q := c.q[1 := c.q[1] + [p]], task := c.task[p := c.task[p].(state := Ready, curQueue := 1)])
  }

  ghost predicate SliceOver(s: Sys) {
    SystemRuns(s) && s.task[s.current].timeslice == 1
  }

  lemma {:induction false} BackIs(s: Sys)
    requires SliceOver(s)
    ensures Requeued(BeforeTick(s)) == Back(s) && Counted(s).task[s.current].timeslice == 0
    ensures BeforeTick(s).task[s.current].state == s.task[s.current].state && QIdx(BeforeTick(s).task[s.current]) == 1
  {
    hide PickQueue, Remove, BeforeTick, Charged, Preempts;
    TickedIs(s);
    CountedIs(s);
    var p, c := s.current, Counted(s);
    assert QIdx(c.task[p]) == 1;
    assert Enqueue(WithState(c, p, Ready), p).task == Back(s).task;
  }

  /** What the tick does at the end of a slice. */
  lemma {:induction false} AtSliceEnd(s: Sys)
    requires SliceOver(s)
    ensures Tick(s) == if Picked(Back(s), 0) == s.current then SelfLoop(BeforeTick(s)) else PickAndSwitch(Back(s))
  {
    hide BeforeTick, Charged, Preempts, PickAndSwitch, Requeued, Back, SelfLoop, Picked, Counted, QIdx;
    BackIs(s);
    CountedIs(s);
  }

  /** Another task of the tier is next. */
  lemma {:induction false} TickSwitches(s: Sys, t: int, s': Sys)
    requires SliceOver(s) && s.task[s.current].curQueue == 1
    requires Remove(s.q[1], s.current) == [t] && t != s.current && Slot(t) && !s.task[t].done
    requires Back(s).q[1][0] == t && Same(Chosen(Back(s), 1, 0), s')
    ensures Goes(s, TickStep, s')
  {
    hide BeforeTick, SelfLoop, PickAndSwitch, PickQueue, QIdx, Schedule, Chosen;
    var p, r := s.current, Back(s);
    AtSliceEnd(s);
    FirstIs(r.task, [t, p], 0);
    Chooses(r, 1, 0);
    SameIs(Chosen(r, 1, 0), s');
    SharesQueue(s, t);
  }

  lemma {:induction false} SharesQueue(s: Sys, t: int)
    requires SystemRuns(s) && Remove(s.q[1], s.current) == [t] && t != s.current && Slot(t) && !s.task[t].done
    ensures !Hazard(BeforeTick(s))
  {
    hide BeforeTick, PickQueue, Remove;
    TickedIs(s);
    var b, p := BeforeTick(s), s.current;
    CountedQueues(s);
    AccountQueue(s.task[p]);
    FirstIs(b.task, [t], 0);
    assert OthersIn(b, 1, p);
  }

  /** Nobody else of the tier is queued: the task makes way for a user task for one slice. */
  lemma {:induction false} TickMakesWay(s: Sys, t: int, s': Sys)
    requires SliceOver(s) && s.task[s.current].curQueue == 2 && s.task[s.current].quota == 0 && !s.task[s.current].done
    requires s.q[1] == [] && s.q[2] == [t] && Slot(t) && t != s.current && !s.task[t].done
    requires var r := Back(s); Same(r.(q := r.q[2 := []], current := t, task := r.task[t := Started(r.task[t])]), s')
    ensures Goes(s, TickStep, s')
  {
    hide BeforeTick, SelfLoop, PickAndSwitch, PickQueue, FirstEligible, Schedule, Started;
    var r := Back(s);
    AloneLoops(s, t);
    AtSliceEnd(s);
    AloneNoHazard(s);
    SameIs(r.(q := r.q[2 := []], current := t, task := r.task[t := Started(r.task[t])]), s');
  }

  lemma {:induction false} AloneNoHazard(s: Sys)
    requires SystemRuns(s) && s.q[1] == []
    ensures !Hazard(BeforeTick(s))
  {
    hide BeforeTick, PickQueue, OthersIn;
    TickedIs(s);
    CountedQueues(s);
    AccountQueue(s.task[s.current]);
    assert Remove([], s.current) == [];
  }

  lemma {:induction false} AloneLoops(s: Sys, t: int)
    requires SliceOver(s) && s.task[s.current].curQueue == 2 && s.task[s.current].quota == 0 && !s.task[s.current].done
    requires s.q[1] == [] && s.q[2] == [t] && Slot(t) && t != s.current && !s.task[t].done
    ensures var r := Back(s);
            && Picked(r, 0) == s.current
            && SelfLoop(BeforeTick(s)) == r.(q := r.q[2 := []], current := t, task := r.task[t := Started(r.task[t])])
  {
    hide BeforeTick, PickQueue, FirstEligible, Requeued;
    var p, r := s.current, Back(s);
    assert Remove([t], p) == [t];
    BackIs(s);
    CountedIs(s);
    assert r.q[1] == [p] && r.q[2] == [t];
    FirstIs(r.task, [p], 0);
    PickIs(r);
    var r1 := r.(q := r.q[1 := []]);
    assert AfterPick(r, 0) == r1;
    FirstIs(r1.task, [t], 0);
    PickIs(r1);
    var e := r1.(q := r1.q[2 := []]);
    assert AfterPick(r1, 2) == e && Picked(r1, 2) == t;
    assert Enqueue(e, p).task == e.task && Enqueue(e, p).q == r.q[2 := []];
  }

  // ------------------------------------------------------------------ the self-loop hazard

  const SYSTEM := Fresh(TIER_SYSTEM, 0, NONE)
  const METERED := Fresh(TIER_SYSTEM, 1, 0)

  /** Task 1 off the CPU after n ticks of its quota of ten. */
  function Metered(n: nat): Task {
    METERED.(used := n, done := n >= 10, timeslice := if n == 0 then TASK_TIMESLICE else 0)
  }

  /** The four states of a round: task 0 has two ticks, then task 1. */
  function R0(i: nat): Sys { Three(Started(SYSTEM), Metered(2 * i), KID, if i == 0 then [1] else [1, 0], [2], 0, Loose([]), 4 * i) }
  function R1(i: nat): Sys { Three(Started(SYSTEM).(timeslice := 1), Metered(2 * i), KID, [1], [2], 0, Loose([]), 4 * i + 1) }
  function R2(i: nat): Sys {
    Three(SYSTEM.(timeslice := 0), Started(Metered(2 * i)), KID, [0, 1], [2], 1, Loose([]), 4 * i + 2)
  }
  function R3(i: nat): Sys {
    Three(SYSTEM.(timeslice := 0), Started(Metered(2 * i)).(used := 2 * i + 1, timeslice := 1), KID, [0], [2], 1, Loose([]), 4 * i + 3)
  }

  function H0(): Sys { Three(FREE_SLOT, FREE_SLOT, FREE_SLOT, [], [], IDLE, Loose([]), 0) }
  function H1(): Sys { Three(SYSTEM, FREE_SLOT, FREE_SLOT, [0], [], IDLE, Loose([]), 0) }
  function H2(): Sys { Three(Started(SYSTEM), FREE_SLOT, FREE_SLOT, [], [], 0, Loose([]), 0) }
  function H3(): Sys { Three(Started(SYSTEM), METERED, FREE_SLOT, [1], [], 0, Loose([]), 0) }

  lemma {:induction false} SystemStarts()
    ensures Goes(H0(), CreateStep(0, TIER_SYSTEM, 0, NONE), H1()) && Goes(H1(), IdleStep, H2())
  {
    hide Goes;
    Made(H0(), 0, TIER_SYSTEM, 0, NONE, H1());
    FirstIs(H1().task, [0], 0);
    IdleRuns(H1(), 1, 0, H2());
  }

  lemma {:induction false} SystemForks()
    ensures Goes(H2(), CreateStep(1, TIER_SYSTEM, 1, 0), H3()) && Goes(H3(), CreateStep(2, TIER_USER, 0, 0), R0(0))
  {
    hide Goes;
    Made(H2(), 1, TIER_SYSTEM, 1, 0, H3());
    Made(H3(), 2, TIER_USER, 0, 0, R0(0));
  }

  lemma {:induction false} FirstTick(i: nat)
    requires i <= 5
    ensures Goes(R0(i), TickStep, R1(i))
  {
    hide Goes;
    RemoveLast(1, 1, 0);
    assert Remove([1], 0) == [1];
    TickGoesOn(R0(i), R1(i));
  }

  lemma {:induction false} SecondTick(i: nat)
    requires i < 5
    ensures Goes(R1(i), TickStep, R2(i))
  {
    hide Goes;
    assert Remove([1], 0) == [1];
    TickSwitches(R1(i), 1, R2(i));
  }

  lemma {:induction false} ThirdTick(i: nat)
    requires i < 5
    ensures Goes(R2(i), TickStep, R3(i))
  {
    hide Goes;
    assert Limit(1) == 10;
    RemoveLast(0, 0, 1);
    TickGoesOn(R2(i), R3(i));
  }

  lemma {:induction false} FourthTick(i: nat)
    requires i < 5
    ensures Goes(R3(i), TickStep, R0(i + 1))
  {
    hide Goes;
    assert Limit(1) == 10;
    assert Remove([0], 1) == [0];
    TickSwitches(R3(i), 0, R0(i + 1));
  }

  /** A system task forks one of quota one and a user task, and shares its queue with the former until that quota is used up. */
  const TO_HAZARD: seq<Step> :=
    [CreateStep(0, TIER_SYSTEM, 0, NONE), IdleStep, CreateStep(1, TIER_SYSTEM, 1, 0), CreateStep(2, TIER_USER, 0, 0)]
    + seq(21, i => TickStep)

  lemma {:induction false} ReachesRound(i: nat)
    requires i <= 5
    ensures Reaches(false, TO_HAZARD[..4 * i + 4], R0(i))
  {
    hide Reaches, Goes, H1, H2, H3, R0, R1, R2, R3;
    var steps := TO_HAZARD;
    if i == 0 {
      BootIs(false);
      assert steps[..0] == [];
      SystemStarts();
      More(false, steps, 0, H0(), H1());
      More(false, steps, 1, H1(), H2());
      SystemForks();
      More(false, steps, 2, H2(), H3());
      More(false, steps, 3, H3(), R0(0));
    } else {
      ReachesRound(i - 1);
      FirstTick(i - 1);
      More(false, steps, 4 * i, R0(i - 1), R1(i - 1));
      SecondTick(i - 1);
      More(false, steps, 4 * i + 1, R1(i - 1), R2(i - 1));
      ThirdTick(i - 1);
      More(false, steps, 4 * i + 2, R2(i - 1), R3(i - 1));
      FourthTick(i - 1);
      More(false, steps, 4 * i + 3, R3(i - 1), R0(i));
    }
  }

  lemma {:induction false} ReachesShared()
    ensures Reaches(false, TO_HAZARD, R1(5))
  {
    hide Reaches, Goes, R0, R1;
    var steps := TO_HAZARD;
    ReachesRound(5);
    FirstTick(5);
    More(false, steps, 24, R0(5), R1(5));
    assert steps[..25] == steps;
  }

  lemma {:induction false} SharedHazard()
    ensures Hazard(BeforeTick(R1(5))) && MayRun(BeforeTick(R1(5)))
  {
    hide BeforeTick, FirstEligible;
    TickedIs(R1(5));
    var b := BeforeTick(R1(5));
    assert Remove([1], 0) == [1] && Remove([2], 0) == [2] && Remove([], 0) == [];
    FirstIs(b.task, [1], 1);
    FirstIs(b.task, [2], 0);
    assert !OthersIn(b, 0, 0) && !OthersIn(b, 1, 0) && OthersIn(b, 2, 0);
  }

  /** A legal run from boot whose next tick enqueues the running task while it is still on its queue. */
  lemma {:induction false} HazardPossible()
    ensures LegalRun(Boot(false), TO_HAZARD)
    ensures var s := Run(Boot(false), TO_HAZARD);
            Inv(s) && QuotaInv(s) && Hazard(BeforeTick(s)) && EnqueuesTwice(BeforeTick(s))
  {
    hide Inv, QuotaInv, LegalRun, Run, Boot, R1, BeforeTick, Hazard, EnqueuesTwice, MayRun;
    ReachesShared();
    BootInv(false);
    BootQuota(false);
    RunQuota(Boot(false), TO_HAZARD);
    SharedHazard();
    SharedInner();
    HazardIff(BeforeTick(R1(5)));
  }

  lemma {:induction false} BootQuota(inherit: bool)
    ensures QuotaInv(Boot(inherit))
  {
  }

  lemma {:induction false} SharedInner()
    requires Inv(R1(5))
    ensures Inner(BeforeTick(R1(5)))
  {
    hide Inner, Ticked;
    assert Inner(R1(5));
    TickedInner(R1(5));
    assert !R1(5).task[0].kill;
  }

  // ------------------------------------------------------------------ a boost that lowers

  const CRITICAL := Started(USER).(tier := TIER_CRITICAL)

  function Inherits(locked: bool): Mutex { Mutex(locked, if locked then 0 else NONE, [], true) }

  function B4(): Sys { Three(CRITICAL, KID, FREE_SLOT, [], [1], 0, Inherits(false), 0) }
  function B5(n: nat): Sys
    requires n <= 2
  {
    Three(CRITICAL.(timeslice := 3 - n), KID, FREE_SLOT, [], [1], 0, Inherits(true), n)
  }
  function B8(): Sys {
    Three(CRITICAL.(state := Ready, timeslice := 0, curQueue := 1), Started(KID), FREE_SLOT, [0], [], 1, Inherits(true), 3)
  }

  lemma {:induction false} CriticalLocks()
    ensures Goes(U3(true), SetTierStep(TIER_CRITICAL), B4()) && Goes(B4(), LockStep, B5(0))
  {
    SameIs(SetTier(U3(true), 0, TIER_CRITICAL), B4());
    Locks(B4(), B5(0));
  }

  lemma {:induction false} CriticalTicks(n: nat)
    requires n < 2
    ensures Goes(B5(n), TickStep, B5(n + 1))
  {
    hide Goes;
    assert Remove([1], 0) == [1];
    TickGoesOn(B5(n), B5(n + 1));
  }

  lemma {:induction false} CriticalMakesWay()
    ensures Goes(B5(2), TickStep, B8())
  {
    hide Goes;
    assert Remove([1], 0) == [1];
    TickMakesWay(B5(2), 1, B8());
  }

  /** A task that was promoted to the critical tier takes the lock and makes way for its child. */
  const TO_LOWERING: seq<Step> := STARTS + [SetTierStep(TIER_CRITICAL), LockStep, TickStep, TickStep, TickStep]

  lemma {:induction false} ReachesUserWaiter()
    ensures Reaches(true, TO_LOWERING, B8())
  {
    hide Reaches, Goes, U3, B4, B5, B8;
    var steps := TO_LOWERING;
    ReachesForked(true, steps);
    CriticalLocks();
    More(true, steps, 3, U3(true), B4());
    More(true, steps, 4, B4(), B5(0));
    CriticalTicks(0);
    More(true, steps, 5, B5(0), B5(1));
    CriticalTicks(1);
    More(true, steps, 6, B5(1), B5(2));
    CriticalMakesWay();
    More(true, steps, 7, B5(2), B8());
    assert steps[..8] == steps;
  }

  /** A legal run from boot after which the running task's lock would boost the ready holder into a lower queue. */
  lemma {:induction false} BoostCanLower()
    ensures LegalRun(Boot(true), TO_LOWERING)
    ensures var s := Run(Boot(true), TO_LOWERING);
            && Legal(s, LockStep) && s.mutex.locked && s.mutex.inherit && s.mutex.holder == 0 && ReadyTask(s, 0)
            && QIdx(s.task[0]) == 1 && QIdx(Boost(s).task[0]) == 2
  {
    hide LegalRun, Run, Boot;
    ReachesUserWaiter();
    assert Remove([0], 0) == [];
  }
}
