/**
 Tasks and run queues as values: what task.c and sched.c do, with each run queue a sequence.
 Kernel.dfy proves that the linked lists refine this view.
 */
module Tasks {
  import opened Basics

  const MAX_TASKS := 16
  const NR_QUEUES := 5
  const IDLE := 16
  const NONE := -1

  const TIER_KERNEL := 0
  const TIER_SYSTEM := 1
  const TIER_USER := 2
  const TIER_CRITICAL := 3

  const TASK_TIMESLICE := 20
  const MLFQ_DEMOTE_TICKS := 3
  const MLFQ_AGING_TICKS := 300
  const QUOTA_PERIOD_TICKS := 1000
  const TICK_WRAP := 0x1_0000_0000

  type Tier = t: int | 0 <= t <= 3

  datatype State = Running | Ready | Waiting | Exited

  /** A task slot, but for its link. `inLock` says the task is inside mutex_lock's retry loop. */
  datatype Task = Task(
    inUse: bool, state: State, curQueue: int, tier: Tier, level: int, contTicks: nat, timeslice: int,
    quota: nat, used: nat, done: bool, inherited: bool, saved: Tier, parent: int, kill: bool, inLock: bool)

  /** The one mutex of the model; holder is a slot or NONE, waitq its wait list, front first. */
  datatype Mutex = Mutex(locked: bool, holder: int, waitq: seq<int>, inherit: bool)

  datatype Sys = Sys(q: seq<seq<int>>, task: seq<Task>, current: int, mutex: Mutex, ticks: nat)

  predicate Shape(s: Sys) {
    |s.q| == NR_QUEUES && |s.task| == MAX_TASKS + 1 && 0 <= s.current <= IDLE && NONE <= s.mutex.holder <= IDLE
  }

  predicate Slot(t: int) {
    0 <= t < MAX_TASKS
  }

  function ClampLevel(l: int): (r: nat) {
    if l < 0 then 0 else if l > 2 then 2 else l
  }

  function TierQueue(tier: Tier): (k: nat) {
    if tier == TIER_KERNEL then 0 else if tier == TIER_SYSTEM || tier == TIER_CRITICAL then 1 else 2
  }

  /** task_qidx: the queue a task belongs on. */
  function QIdx(t: Task): (k: nat)
    ensures k < NR_QUEUES
  {
    if t.tier == TIER_USER then 2 + ClampLevel(t.level) else TierQueue(t.tier)
  }

  /** tier_timeslice. */
  function Slice(t: Task): (n: int)
    ensures 1 <= n <= 3
  {
    if t.tier == TIER_KERNEL then 1
    else if t.tier == TIER_SYSTEM || t.tier == TIER_CRITICAL then 2
    else 3 - ClampLevel(t.level)
  }

  // ------------------------------------------------------------------ queues

  function Remove(l: seq<int>, t: int): (r: seq<int>)
    ensures t !in l ==> r == l
    ensures |r| <= |l|
  {
    if l == [] then [] else if l[0] == t then l[1..] else [l[0]] + Remove(l[1..], t)
  }

  lemma {:induction false} RemoveMembers(l: seq<int>, t: int)
    requires Distinct(l)
    ensures Distinct(Remove(l, t)) && forall x :: x in Remove(l, t) <==> x in l && x != t
  {
    if l != [] {
      RemoveMembers(l[1..], t);
      assert l == [l[0]] + l[1..];
      assert l[0] !in l[1..];
    }
  }

  predicate Eligible(task: seq<Task>, t: int) {
    0 <= t < |task| && !task[t].done
  }

  /** Position of the first task of the list that has quota left; |l| when there is none. */
  function FirstEligible(task: seq<Task>, l: seq<int>): (i: nat)
    ensures i <= |l|
    ensures forall j :: 0 <= j < i ==> !Eligible(task, l[j])
    ensures i < |l| ==> Eligible(task, l[i])
  {
    if l == [] then 0 else if Eligible(task, l[0]) then 0 else 1 + FirstEligible(task, l[1..])
  }

  predicate HasEligible(task: seq<Task>, l: seq<int>) {
    FirstEligible(task, l) < |l|
  }

  /** The first queue from k on with an eligible task; NR_QUEUES when there is none. */
  function PickQueue(task: seq<Task>, q: seq<seq<int>>, k: nat): (r: nat)
    requires |q| == NR_QUEUES && k <= NR_QUEUES
    ensures k <= r <= NR_QUEUES
    ensures forall j :: k <= j < r ==> !HasEligible(task, q[j])
    ensures r < NR_QUEUES ==> HasEligible(task, q[r])
    decreases NR_QUEUES - k
  {
    if k == NR_QUEUES then k else if HasEligible(task, q[k]) then k else PickQueue(task, q, k + 1)
  }

  /** What a pick leaves of a queue whose task at position i it returns. */
  function Rotated(l: seq<int>, i: nat): (r: seq<int>)
    requires i < |l|
  {
    if |l| == 1 then [] else l[i + 1..] + l[..i] + [l[i]]
  }

  /** pick_next_task (from 0) and pick_next_lower (from min_q): the task, and the queues it leaves. */
  function Picked(s: Sys, from: nat): (t: int)
    requires Shape(s) && from <= NR_QUEUES
  {
    var k := PickQueue(s.task, s.q, from);
    if k == NR_QUEUES then NONE else s.q[k][FirstEligible(s.task, s.q[k])]
  }

  function AfterPick(s: Sys, from: nat): (s': Sys)
    requires Shape(s) && from <= NR_QUEUES
    ensures Shape(s')
  {
    var k := PickQueue(s.task, s.q, from);
    if k == NR_QUEUES then s else s.(q := s.q[k := Rotated(s.q[k], FirstEligible(s.task, s.q[k]))])
  }

  /** enqueue_task. */
  function Enqueue(s: Sys, t: int): (s': Sys)
    requires Shape(s) && 0 <= t <= IDLE
    ensures Shape(s')
  {
    var k := QIdx(s.task[t]);
    s.(task := s.task[t := s.task[t].(curQueue := k)], q := s.q[k := s.q[k] + [t]])
  }

  /** dequeue_task. */
  function Dequeue(s: Sys, t: int): (s': Sys)
    requires Shape(s) && 0 <= t <= IDLE
    ensures Shape(s')
  {
    var k := s.task[t].curQueue;
    if 0 <= k < NR_QUEUES then s.(q := s.q[k := Remove(s.q[k], t)]) else s
  }

  function WithState(s: Sys, t: int, st: State): (s': Sys)
    requires Shape(s) && 0 <= t <= IDLE
    ensures Shape(s')
  {
    s.(task := s.task[t := s.task[t].(state := st)])
  }

  // ------------------------------------------------------------------ schedule

  /** switch_to_task, and IDLE when the pick found nobody. */
  function SwitchTo(s: Sys, next: int): (s': Sys)
    requires Shape(s) && NONE <= next <= IDLE
    ensures Shape(s')
  {
    var n := if next == NONE then IDLE else next;
    s.(current := n, task := s.task[n := s.task[n].(state := Running, timeslice := Slice(s.task[n]))])
  }

  lemma {:induction false} PickedRange(s: Sys, from: nat)
    requires Shape(s) && from <= NR_QUEUES
    ensures NONE <= Picked(s, from) <= IDLE
    ensures Picked(s, from) != NONE <==> PickQueue(s.task, s.q, from) < NR_QUEUES
    ensures Picked(s, from) != NONE ==> Eligible(s.task, Picked(s, from))
  {
  }

  function PickAndSwitch(s: Sys): (s': Sys)
    requires Shape(s)
    ensures Shape(s')
  {
    PickedRange(s, 0);
    SwitchTo(AfterPick(s, 0), Picked(s, 0))
  }

  /** The incumbent off its queue and one unit of its slice spent. */
  function Charged(s: Sys): (s': Sys)
    requires Shape(s)
    ensures Shape(s') && s'.current == s.current
  {
    var p, s0 := s.current, Dequeue(s, s.current);
    if s0.task[p].timeslice > 0
    then s0.(task := s0.task[p := s0.task[p].(timeslice := s0.task[p].timeslice - 1)]) else s0
  }

  /** The incumbent back at the tail of its queue. */
  function Requeued(s: Sys): (s': Sys)
    requires Shape(s)
    ensures Shape(s') && s'.current == s.current
  {
    Enqueue(WithState(Charged(s), s.current, Ready), s.current)
  }

  predicate Preempts(s: Sys)
    requires Shape(s)
  {
    var s1 := Charged(s);
    PickedRange(s1, 0);
    Picked(s1, 0) != NONE && QIdx(s1.task[Picked(s1, 0)]) < QIdx(s.task[s.current])
  }

  /** The slice is used up and the incumbent itself is next. */
  function SelfLoop(s: Sys): (s': Sys)
    requires Shape(s)
    ensures Shape(s')
  {
    var p, s3 := s.current, AfterPick(Requeued(s), 0);
    var below := QIdx(s.task[p]) + 1;
    PickedRange(s3, below);
    if Picked(s3, below) != NONE
    then SwitchTo(Enqueue(AfterPick(s3, below), p), Picked(s3, below))
    else s3.(task := s3.task[p := s3.task[p].(timeslice := Slice(s3.task[p]))])
  }

  function Schedule(s: Sys): (s': Sys)
    requires Shape(s)
    ensures Shape(s')
  {
    var p := s.current;
    if p == IDLE then
      if Picked(s, 0) == NONE then s else PickAndSwitch(s)
    else if s.task[p].state == Exited then PickAndSwitch(s)
    else if s.task[p].state == Waiting then PickAndSwitch(Dequeue(s, p))
    else if Preempts(s) then PickAndSwitch(Requeued(s))
    else if Charged(s).task[p].timeslice <= 0 then
      if Picked(Requeued(s), 0) == p then SelfLoop(s) else PickAndSwitch(Requeued(s))
    else Charged(s)
  }

  // ------------------------------------------------------------------ tiers and levels

  /** task_set_tier. */
  function SetTier(s: Sys, t: int, tier: Tier): (s': Sys)
    requires Shape(s) && 0 <= t <= IDLE
    ensures Shape(s') && s'.current == s.current
  {
    var moved := s.task[t].(tier := tier);
    if QIdx(s.task[t]) != QIdx(moved) && s.task[t].state == Ready && t != s.current
    then var s1 := Dequeue(s, t); Enqueue(s1.(task := s1.task[t := moved]), t)
    else s.(task := s.task[t := moved])
  }

  /** task_set_mlfq_level. */
  function SetLevel(s: Sys, t: int, level: int): (s': Sys)
    requires Shape(s) && 0 <= t <= IDLE
    ensures Shape(s') && s'.current == s.current
  {
    var moved := s.task[t].(level := ClampLevel(level));
    if s.task[t].level == ClampLevel(level) then s
    else if QIdx(s.task[t]) != QIdx(moved) && s.task[t].state == Ready && t != s.current
    then Enqueue(Dequeue(s.(task := s.task[t := moved]), t), t)
    else s.(task := s.task[t := moved])
  }

  predicate Ages(t: Task) {
    t.inUse && t.tier == TIER_USER && t.level > 0 && !t.done && (t.state == Ready || t.state == Running)
  }

  /** task_mlfq_aging, from slot i on. */
  function Aging(s: Sys, i: nat): (s': Sys)
    requires Shape(s) && i <= MAX_TASKS
    ensures Shape(s') && s'.current == s.current
    decreases MAX_TASKS - i
  {
    if i == MAX_TASKS then s
    else Aging(if Ages(s.task[i]) then SetLevel(s, i, s.task[i].level - 1) else s, i + 1)
  }

  /** task_quota_period_reset. */
  function QuotaReset(s: Sys): (s': Sys)
    requires Shape(s)
    ensures Shape(s') && s'.current == s.current
  {
    s.(task := seq(|s.task|, i requires 0 <= i < |s.task| =>
      if i < MAX_TASKS && s.task[i].inUse then s.task[i].(used := 0, done := false) else s.task[i]))
  }

  // ------------------------------------------------------------------ what tasks and the timer do

  /** The state in which yield calls schedule. */
  function Yielding(s: Sys): (s': Sys)
    requires Shape(s)
    ensures Shape(s') && s'.current == s.current
  {
    var p := s.current;
    var s1 := if s.task[p].tier == TIER_USER then
                var s0 := s.(task := s.task[p := s.task[p].(contTicks := 0)]);
                if s0.task[p].level > 0 then SetLevel(s0, p, 0) else s0
              else s;
    WithState(s1, p, Ready)
  }

  /** yield. */
  function Yield(s: Sys): (s': Sys)
    requires Shape(s)
    ensures Shape(s')
  {
    Schedule(Yielding(s))
  }

  /** The state in which sys_wait calls schedule. */
  function Waits(s: Sys): (s': Sys)
    requires Shape(s)
    ensures Shape(s') && s'.current == s.current
  {
    Dequeue(WithState(s, s.current, Waiting), s.current)
  }

  /** The blocking half of sys_wait. */
  function WaitChild(s: Sys): (s': Sys)
    requires Shape(s)
    ensures Shape(s')
  {
    Schedule(Waits(s))
  }

  /** task_exit up to its call of schedule: leave the queue, wake a waiting parent, orphan the children. */
  function Dying(s: Sys): (s': Sys)
    requires Shape(s)
    ensures Shape(s') && s'.current == s.current
  {
    var t := s.current;
    Orphaned(WakeParent(WithState(Dequeue(s, t), t, Exited), s.task[t].parent), t)
  }

  function WakeParent(s: Sys, p: int): (s': Sys)
    requires Shape(s)
    ensures Shape(s') && s'.current == s.current
  {
    if Slot(p) && s.task[p].state == Waiting then
      var v := s.task[p].(state := Ready);
      var v' := if v.tier == TIER_USER then v.(contTicks := 0, level := 0) else v;
      Enqueue(s.(task := s.task[p := v']), p)
    else s
  }

  function Orphaned(s: Sys, t: int): (s': Sys)
    requires Shape(s) && 0 <= t <= IDLE
    ensures Shape(s') && s'.current == s.current
  {
    var orphans := seq(|s.task|, i requires 0 <= i < |s.task| =>
      if i < MAX_TASKS && s.task[i].inUse && s.task[i].parent == t then s.task[i].(parent := NONE) else s.task[i]);
    s.(task := orphans[t := orphans[t].(inherited := false, saved := TIER_USER)])
  }

  /** task_exit: it does not return. */
  function Exit(s: Sys): (s': Sys)
    requires Shape(s)
    ensures Shape(s')
  {
    Schedule(Dying(s))
  }

  /** CPU quota of a task in ticks per period. */
  function Limit(quota: nat): (n: nat)
    ensures n >= 1
  {
    var n := QUOTA_PERIOD_TICKS * quota / 100;
    if n == 0 then 1 else n
  }

  /** The quota accounting of one tick. */
  function Account(t: Task): (t': Task) {
    if t.quota > 0 then
      t.(used := t.used + 1, done := t.done || t.used + 1 >= Limit(t.quota))
    else t
  }

  /** The MLFQ demotion of one tick. */
  function Demote(s: Sys): (s': Sys)
    requires Shape(s)
    ensures Shape(s') && s'.current == s.current
  {
    var p := s.current;
    if s.task[p].tier == TIER_USER && !s.task[p].done then
      var s0 := s.(task := s.task[p := s.task[p].(contTicks := s.task[p].contTicks + 1)]);
      if s0.task[p].contTicks >= MLFQ_DEMOTE_TICKS && s0.task[p].level < 2 then
        var s1 := SetLevel(s0, p, s0.task[p].level + 1);
        s1.(task := s1.task[p := s1.task[p].(contTicks := 0)])
      else s0
    else s
  }

  /** A timer tick before its call of schedule, when the current task is not to be killed. */
  function Ticked(s: Sys): (s': Sys)
    requires Shape(s)
    ensures Shape(s') && s'.current == s.current
  {
    var s0 := s.(ticks := (s.ticks + 1) % TICK_WRAP, task := s.task[s.current := Account(s.task[s.current])]);
    var s1 := Demote(s0);
    var s2 := if s1.ticks % MLFQ_AGING_TICKS == 0 then Aging(s1, 0) else s1;
    if s2.ticks % QUOTA_PERIOD_TICKS == 0 then QuotaReset(s2) else s2
  }

  /** The state in which pit_handler calls schedule: a marked task dies first, and then nothing else is done. */
  function BeforeTick(s: Sys): (s': Sys)
    requires Shape(s)
    ensures Shape(s')
  {
    var p := s.current;
    if s.task[p].kill
    then Dying(s.(ticks := (s.ticks + 1) % TICK_WRAP, task := s.task[p := s.task[p].(kill := false)]))
    else Ticked(s)
  }

  /** pit_handler. */
  function Tick(s: Sys): (s': Sys)
    requires Shape(s)
    ensures Shape(s')
  {
    Schedule(BeforeTick(s))
  }

  /** A slot taken by create_task or sys_fork, and put on its queue. */
  function Create(s: Sys, t: int, tier: Tier, quota: nat, parent: int): (s': Sys)
    requires Shape(s) && 0 <= t <= IDLE
    ensures Shape(s') && s'.current == s.current
  {
    Enqueue(s.(task := s.task[t := Task(true, Ready, -1, tier, 0, 0, TASK_TIMESLICE, quota, 0, false,
                                        false, TIER_KERNEL, parent, false, false)]), t)
  }

  /** free_task_slot. */
  function Reap(s: Sys, t: int): (s': Sys)
    requires Shape(s) && Slot(t)
    ensures Shape(s') && s'.current == s.current
  {
    s.(task := s.task[t := Task(false, Running, 0, TIER_KERNEL, 0, 0, 0, 0, 0, false, false, TIER_KERNEL, NONE, false, false)])
  }

  /** SYS_KILL marks a task. */
  function MarkKill(s: Sys, t: int): (s': Sys)
    requires Shape(s) && Slot(t)
    ensures Shape(s') && s'.current == s.current
  {
    s.(task := s.task[t := s.task[t].(kill := true)])
  }

  // ------------------------------------------------------------------ the mutex

  /** The boost of mutex_lock: a holder of a greater tier number takes the waiter's tier. */
  function Boost(s: Sys): (s': Sys)
    requires Shape(s)
    ensures Shape(s') && s'.current == s.current
  {
    var h, me := s.mutex.holder, s.current;
    if s.mutex.inherit && h != NONE && s.task[h].tier > s.task[me].tier then
      var s0 := if s.task[h].inherited then s else s.(task := s.task[h := s.task[h].(saved := s.task[h].tier)]);
      var s1 := SetTier(s0, h, s.task[me].tier);
      s1.(task := s1.task[h := s1.task[h].(inherited := true)])
    else s
  }

  /** The blocking half of mutex_lock's loop body, up to its call of schedule. */
  function Blocked(s: Sys): (s': Sys)
    requires Shape(s)
    ensures Shape(s') && s'.current == s.current
  {
    var me, s1 := s.current, Dequeue(Boost(s), s.current);
    s1.(task := s1.task[me := s1.task[me].(state := Waiting, inLock := true)],
        mutex := s1.mutex.(waitq := [me] + s1.mutex.waitq))
  }

  function Acquired(s: Sys): (s': Sys)
    requires Shape(s)
    ensures Shape(s') && s'.current == s.current
  {
    var me := s.current;
    s.(task := s.task[me := s.task[me].(inLock := false)], mutex := s.mutex.(locked := true, holder := me))
  }

  /** One pass of mutex_lock's loop: the first call, or the retry of a woken waiter. */
  function Lock(s: Sys): (s': Sys)
    requires Shape(s)
    ensures Shape(s')
  {
    if !s.mutex.locked then Acquired(s) else Schedule(Blocked(s))
  }

  /** mutex_trylock. */
  function TryLock(s: Sys): (s': Sys)
    requires Shape(s)
    ensures Shape(s')
  {
    if s.mutex.locked then s else s.(mutex := s.mutex.(locked := true, holder := s.current))
  }

  /** The restoring half of mutex_unlock. */
  function Restore(s: Sys): (s': Sys)
    requires Shape(s)
    ensures Shape(s') && s'.current == s.current && s'.mutex == s.mutex
  {
    var h := s.mutex.holder;
    if h != NONE && s.task[h].inherited then
      var s0 := s.(task := s.task[h := s.task[h].(inherited := false)]);
      var s1 := SetTier(s0, h, s.task[h].saved);
      s1.(task := s1.task[h := s1.task[h].(saved := TIER_USER)])
    else s
  }

  /** mutex_unlock: restore the holder's tier, release, and wake the front waiter. */
  function Unlock(s: Sys): (s': Sys)
    requires Shape(s)
    ensures Shape(s')
  {
    var s1 := Restore(s);
    var w := s1.mutex.waitq;
    if w == [] || !(0 <= w[0] <= IDLE) then s1.(mutex := s1.mutex.(locked := false, holder := NONE))
    else Enqueue(WithState(s1.(mutex := s1.mutex.(locked := false, holder := NONE, waitq := w[1..])), w[0], Ready), w[0])
  }
}
