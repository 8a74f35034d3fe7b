/**
 What every step of the scheduler and the mutex keeps: no task is lost, none is on two queues,
 and nobody who is blocked or gone is on a run queue.
 */
module SchedInv {
  import opened Basics
  import opened Tasks

  // ------------------------------------------------------------------ the invariant

  ghost predicate OnIt(s: Sys, k: nat, t: int)
    requires Shape(s)
  {
    && Slot(t) && s.task[t].inUse && s.task[t].curQueue == k
    && (s.task[t].state == Ready || s.task[t].state == Running)
  }

  /** Queue k holds each of its tasks once, and each knows that it is there and may run. */
  ghost predicate QueueOk(s: Sys, k: nat)
    requires Shape(s) && k < NR_QUEUES
  {
    Distinct(s.q[k]) && forall t <- s.q[k] :: OnIt(s, k, t)
  }

  ghost predicate IsWaiter(s: Sys, t: int)
    requires Shape(s)
  {
    Slot(t) && s.task[t].inUse && s.task[t].state == Waiting && s.task[t].inLock
  }

  ghost predicate Base(s: Sys) {
    && Shape(s)
    && (forall k :: 0 <= k < NR_QUEUES ==> QueueOk(s, k))
    && Distinct(s.mutex.waitq) && (forall t <- s.mutex.waitq :: IsWaiter(s, t))
    && (s.mutex.locked <==> s.mutex.holder != NONE) && s.mutex.holder != IDLE
    && (forall t :: Slot(t) && !s.task[t].inUse ==> s.task[t].state == Running)
  }

  ghost predicate ReadyTask(s: Sys, t: int)
    requires Shape(s)
  {
    Slot(t) && s.task[t].inUse && s.task[t].state == Ready
  }

  /** Every ready task but x is on the queue of its tier and level. */
  ghost predicate AllQueued(s: Sys, x: int)
    requires Shape(s)
  {
    forall t :: ReadyTask(s, t) && t != x ==> t in s.q[QIdx(s.task[t])]
  }

  ghost predicate RunningTask(s: Sys, t: int)
    requires Shape(s)
  {
    Slot(t) && s.task[t].inUse && s.task[t].state == Running
  }

  /** Nobody but x runs. */
  ghost predicate OnlyRuns(s: Sys, x: int)
    requires Shape(s)
  {
    forall t :: RunningTask(s, t) ==> t == x
  }

  /** Holds whenever the scheduler is entered. */
  ghost predicate Inner(s: Sys) {
    Base(s) && AllQueued(s, s.current) && OnlyRuns(s, s.current) && (s.current == IDLE || s.task[s.current].inUse)
  }

  ghost predicate CurrentOk(s: Sys)
    requires Shape(s)
  {
    s.current == IDLE || ReadyTask(s, s.current) || RunningTask(s, s.current)
  }

  /** Holds between steps. */
  ghost predicate Inv(s: Sys) {
    Inner(s) && CurrentOk(s)
  }

  ghost predicate OffQueues(s: Sys, t: int)
    requires Shape(s)
  {
    forall k :: 0 <= k < NR_QUEUES ==> t !in s.q[k]
  }

  /** The incumbent may be left: if it is ready it is queued, and it does not run. */
  ghost predicate Settled(s: Sys) {
    Base(s) && AllQueued(s, NONE) && OnlyRuns(s, NONE)
  }

  // ------------------------------------------------------------------ queue operations keep it

  /** A task is on the queue it names, or on none. */
  lemma {:induction false} OnlyOwnQueue(s: Sys, t: int)
    requires Base(s) && 0 <= t <= IDLE
    ensures forall k :: 0 <= k < NR_QUEUES && t in s.q[k] ==> k == s.task[t].curQueue
  {
    forall k | 0 <= k < NR_QUEUES && t in s.q[k] ensures k == s.task[t].curQueue {
      assert QueueOk(s, k) && OnIt(s, k, t);
    }
  }

  lemma {:induction false} DequeueBase(s: Sys, t: int)
    requires Base(s) && 0 <= t <= IDLE
    ensures Base(Dequeue(s, t)) && OffQueues(Dequeue(s, t), t)
    ensures Dequeue(s, t).task == s.task && Dequeue(s, t).mutex == s.mutex && Dequeue(s, t).current == s.current
    ensures forall x, k :: 0 <= k < NR_QUEUES && x != t ==> (x in Dequeue(s, t).q[k] <==> x in s.q[k])
  {
    hide Remove;
    var s', k := Dequeue(s, t), s.task[t].curQueue;
    OnlyOwnQueue(s, t);
    if 0 <= k < NR_QUEUES {
      assert QueueOk(s, k);
      RemoveMembers(s.q[k], t);
    }
    forall j | 0 <= j < NR_QUEUES ensures QueueOk(s', j) {
      assert QueueOk(s, j);
      forall x <- s'.q[j] ensures OnIt(s', j, x) { assert x in s.q[j]; assert OnIt(s, j, x); }
    }
    forall x <- s'.mutex.waitq ensures IsWaiter(s', x) { assert IsWaiter(s, x); }
  }

  lemma {:induction false} EnqueueBase(s: Sys, t: int)
    requires Base(s) && ReadyTask(s, t) && OffQueues(s, t)
    ensures Base(Enqueue(s, t)) && ReadyTask(Enqueue(s, t), t)
    ensures t in Enqueue(s, t).q[QIdx(s.task[t])]
    ensures forall x, k :: 0 <= k < NR_QUEUES && x != t ==> (x in Enqueue(s, t).q[k] <==> x in s.q[k])
  {
    var s', k := Enqueue(s, t), QIdx(s.task[t]);
    forall j | 0 <= j < NR_QUEUES ensures QueueOk(s', j) {
      assert QueueOk(s, j) && t !in s.q[j];
      forall x <- s'.q[j] ensures OnIt(s', j, x) { assert x != t ==> OnIt(s, j, x); }
    }
    forall x <- s'.mutex.waitq ensures IsWaiter(s', x) { assert IsWaiter(s, x); }
  }

  /** Changing a task's fields, but not where it is and whether it may run, keeps the base. */
  lemma {:induction false} FieldsBase(s: Sys, t: int, v: Task)
    requires Base(s) && 0 <= t <= IDLE
    requires || (&& v.inUse == s.task[t].inUse && v.curQueue == s.task[t].curQueue && v.state == s.task[t].state
                 && (v.state == Waiting ==> v.inLock == s.task[t].inLock))
             || (OffQueues(s, t) && t !in s.mutex.waitq && (v.inUse || v.state == Running))
    ensures Base(s.(task := s.task[t := v]))
  {
    var s' := s.(task := s.task[t := v]);
    forall j | 0 <= j < NR_QUEUES ensures QueueOk(s', j) {
      assert QueueOk(s, j);
      forall x <- s'.q[j] ensures OnIt(s', j, x) { assert OnIt(s, j, x); }
    }
    forall x <- s'.mutex.waitq ensures IsWaiter(s', x) { assert IsWaiter(s, x); }
  }

  // ------------------------------------------------------------------ picking

  lemma {:induction false} RotatedMembers(l: seq<int>, i: nat)
    requires Distinct(l) && i < |l|
    ensures Distinct(Rotated(l, i))
    ensures forall x :: x in Rotated(l, i) ==> x in l
    ensures forall x :: x in l && x != l[i] ==> x in Rotated(l, i)
    ensures l[i] in Rotated(l, i) <==> |l| > 1
  {
    var r := Rotated(l, i);
    assert l == l[..i] + [l[i]] + l[i + 1..];
    if |l| > 1 {
      forall j | 0 <= j < |r| ensures r[j] == l[if j < |l| - i - 1 then i + 1 + j else if j < |l| - 1 then j - (|l| - i - 1) else i] {
      }
    }
  }

  /** A pick removes at most the task it returns from a queue. */
  lemma {:induction false} PickBase(s: Sys, from: nat)
    requires Base(s) && from <= NR_QUEUES
    ensures var s', t := AfterPick(s, from), Picked(s, from);
            && Base(s') && s'.task == s.task && s'.mutex == s.mutex && s'.current == s.current
            && (forall x, k :: 0 <= k < NR_QUEUES && x in s'.q[k] ==> x in s.q[k])
            && (forall x, k :: 0 <= k < NR_QUEUES && x in s.q[k] && x != t ==> x in s'.q[k])
            && (t != NONE ==> Slot(t) && !s.task[t].done && exists k :: from <= k < NR_QUEUES && t in s.q[k])
  {
    hide FirstEligible, Rotated;
    var s', k := AfterPick(s, from), PickQueue(s.task, s.q, from);
    if k < NR_QUEUES {
      var l := s.q[k];
      var i := FirstEligible(s.task, l);
      assert QueueOk(s, k) && OnIt(s, k, l[i]);
      RotatedMembers(l, i);
      assert l[i] in s.q[k];
    }
    forall j | 0 <= j < NR_QUEUES ensures QueueOk(s', j) {
      assert QueueOk(s, j);
      forall x <- s'.q[j] ensures OnIt(s', j, x) { assert x in s.q[j]; assert OnIt(s, j, x); }
    }
    forall x <- s'.mutex.waitq ensures IsWaiter(s', x) { assert IsWaiter(s, x); }
  }

  /** Leaving a settled incumbent for the picked task, or for idle, restores the invariant. */
  lemma {:induction false} SwitchInv(s: Sys)
    requires Settled(s)
    ensures Inv(PickAndSwitch(s))
  {
    hide FirstEligible, Rotated;
    var t, s1 := Picked(s, 0), AfterPick(s, 0);
    PickBase(s, 0);
    PickedRange(s, 0);
    if t != NONE {
      var k :| 0 <= k < NR_QUEUES && t in s.q[k];
      assert QueueOk(s, k) && OnIt(s, k, t);
      assert RunningTask(s, t) || ReadyTask(s1, t);
    }
    SameTasks(s, s1, NONE, t);
    SettledSwitch(s1, t);
  }

  /** Both clauses carry over to a state with the same tasks whose queues lost at most t. */
  lemma {:induction false} SameTasks(s: Sys, s': Sys, x: int, t: int)
    requires Shape(s) && Shape(s') && s'.task == s.task && AllQueued(s, x) && OnlyRuns(s, x)
    requires forall y, k :: 0 <= k < NR_QUEUES && y in s.q[k] && y != t ==> y in s'.q[k]
    ensures (t == x || x == NONE ==> AllQueued(s', t)) && OnlyRuns(s', x)
    ensures x != NONE && t == NONE ==> AllQueued(s', x)
  {
    forall y | ReadyTask(s', y) ensures y == x || y == t || y in s'.q[QIdx(s'.task[y])] { assert ReadyTask(s, y); }
    forall y | RunningTask(s', y) ensures y == x { assert RunningTask(s, y); }
  }

  lemma {:induction false} SettledSwitch(s: Sys, t: int)
    requires Base(s) && AllQueued(s, t) && OnlyRuns(s, NONE) && (t == NONE || ReadyTask(s, t))
    ensures Inv(SwitchTo(s, t))
  {
    var s', n := SwitchTo(s, t), if t == NONE then IDLE else t;
    forall j | 0 <= j < NR_QUEUES ensures QueueOk(s', j) {
      assert QueueOk(s, j);
      forall x <- s'.q[j] ensures OnIt(s', j, x) { assert OnIt(s, j, x); }
    }
    forall x <- s'.mutex.waitq ensures IsWaiter(s', x) { assert IsWaiter(s, x); }
    forall x | ReadyTask(s', x) && x != n ensures x in s'.q[QIdx(s'.task[x])] { assert ReadyTask(s, x); }
    assert forall x :: RunningTask(s', x) && x != n ==> RunningTask(s, x);
  }

  // ------------------------------------------------------------------ schedule keeps it

  ghost predicate MayRun(s: Sys)
    requires Shape(s)
  {
    s.current != IDLE && (ReadyTask(s, s.current) || RunningTask(s, s.current))
  }

  lemma {:induction false} ChargedBase(s: Sys)
    requires Inner(s) && MayRun(s)
    ensures var s', p := Charged(s), s.current;
            && Base(s') && AllQueued(s', p) && OnlyRuns(s', p) && OffQueues(s', p) && MayRun(s')
            && s'.mutex == s.mutex && s'.task == s.task[p := s.task[p].(timeslice := s'.task[p].timeslice)]
            && s'.task[p].timeslice == (if s.task[p].timeslice > 0 then s.task[p].timeslice - 1 else s.task[p].timeslice)
            && (forall x, k :: 0 <= k < NR_QUEUES && x != p ==> (x in s'.q[k] <==> x in s.q[k]))
  {
    var p, s0, s' := s.current, Dequeue(s, s.current), Charged(s);
    DequeueBase(s, p);
    FieldsBase(s0, p, s'.task[p]);
    forall x | ReadyTask(s', x) && x != p ensures x in s'.q[QIdx(s'.task[x])] { assert ReadyTask(s, x); }
    forall x | RunningTask(s', x) ensures x == p { assert x != p ==> RunningTask(s, x); }
  }

  /** The incumbent may be put back. */
  lemma {:induction false} BeforeRequeue(s: Sys)
    requires Inner(s) && MayRun(s)
    ensures var s2, p := WithState(Charged(s), s.current, Ready), s.current;
            Base(s2) && ReadyTask(s2, p) && OffQueues(s2, p)
  {
    hide Charged, QueueOk, AllQueued, OnlyRuns;
    var p, s1 := s.current, Charged(s);
    ChargedBase(s);
    assert p in s1.mutex.waitq ==> IsWaiter(s1, p);
    FieldsBase(s1, p, WithState(s1, p, Ready).task[p]);
  }

  lemma {:induction false} RequeuedSettled(s: Sys)
    requires Inner(s) && MayRun(s)
    ensures var s', p := Requeued(s), s.current;
            && Settled(s') && ReadyTask(s', p) && p in s'.q[QIdx(s.task[p])] && s'.mutex == s.mutex
            && (forall x, k :: 0 <= k < NR_QUEUES && x != p ==> (x in s'.q[k] <==> x in s.q[k]))
            && (forall x :: 0 <= x <= IDLE && x != p ==> s'.task[x] == s.task[x])
            && QIdx(s'.task[p]) == QIdx(s.task[p]) && s'.task[p].done == s.task[p].done
  {
    var p, s1, s' := s.current, Charged(s), Requeued(s);
    ChargedBase(s);
    var s2 := WithState(s1, p, Ready);
    assert p in s1.mutex.waitq ==> IsWaiter(s1, p);
    FieldsBase(s1, p, s2.task[p]);
    EnqueueBase(s2, p);
    forall x | ReadyTask(s', x) ensures x in s'.q[QIdx(s'.task[x])] { assert x != p ==> ReadyTask(s1, x); }
    assert forall x :: RunningTask(s', x) ==> RunningTask(s1, x) && x != p;
  }

  /** An incumbent that is idle, blocked or gone needs no queue. */
  lemma {:induction false} AbsentSettled(s: Sys)
    requires Inner(s) && !MayRun(s)
    ensures Settled(s)
  {
    assert forall x :: ReadyTask(s, x) ==> x != s.current;
    assert forall x :: RunningTask(s, x) ==> x != s.current;
  }

  // ------------------------------------------------------------------ the self-loop hazard

  lemma {:induction false} EligibleSame(task: seq<Task>, task': seq<Task>, l: seq<int>)
    requires forall t <- l :: Eligible(task, t) == Eligible(task', t)
    ensures FirstEligible(task, l) == FirstEligible(task', l)
  {
    if l != [] && !Eligible(task, l[0]) { EligibleSame(task, task', l[1..]); }
  }

  lemma {:induction false} EligibleAppend(task: seq<Task>, l: seq<int>, t: int)
    ensures FirstEligible(task, l + [t]) ==
            if HasEligible(task, l) then FirstEligible(task, l) else if Eligible(task, t) then |l| else |l| + 1
  {
    if l == [] {
      assert [] + [t] == [t];
    } else if !Eligible(task, l[0]) {
      assert (l + [t])[1..] == l[1..] + [t];
      EligibleAppend(task, l[1..], t);
    }
  }

  /** Can any task other than p run from queue j? */
  ghost predicate OthersIn(s: Sys, j: nat, p: int)
    requires Shape(s) && j < NR_QUEUES
  {
    HasEligible(s.task, Remove(s.q[j], p))
  }

  /**
   What a caller of schedule can check beforehand: the incumbent's slice ends now and it has quota left, it
   shares its queue only with tasks whose quota is used up, nobody above can run, and somebody below can.
   */
  ghost predicate Hazard(s: Sys)
    requires Shape(s)
  {
    var p := s.current;
    MayRun(s) && s.task[p].timeslice <= 1 && !s.task[p].done &&
    var k := QIdx(s.task[p]);
    && (forall j :: 0 <= j < k ==> !OthersIn(s, j, p))
    && Remove(s.q[k], p) != [] && !OthersIn(s, k, p)
    && exists j :: k < j < NR_QUEUES && OthersIn(s, j, p)
  }

  /** schedule reaches the re-enqueue of its self-loop branch with the incumbent still on its queue. */
  ghost predicate EnqueuesTwice(s: Sys)
    requires Shape(s)
  {
    var p := s.current;
    MayRun(s) && !Preempts(s) && Charged(s).task[p].timeslice <= 0 && Picked(Requeued(s), 0) == p &&
    var s3, below := AfterPick(Requeued(s), 0), QIdx(s.task[p]) + 1;
    Picked(s3, below) != NONE && !OffQueues(AfterPick(s3, below), p)
  }

  /** The queues once the incumbent is off and back on. */
  lemma {:induction false} RequeuedQueues(s: Sys)
    requires Inner(s) && MayRun(s)
    ensures var p, r, c := s.current, Requeued(s), Charged(s);
            var k := QIdx(s.task[p]);
            && (forall j :: 0 <= j < NR_QUEUES ==> c.q[j] == Remove(s.q[j], p))
            && (forall j :: 0 <= j < NR_QUEUES ==> r.q[j] == if j == k then Remove(s.q[j], p) + [p] else Remove(s.q[j], p))
            && (forall j :: 0 <= j < NR_QUEUES ==> HasEligible(c.task, c.q[j]) == OthersIn(s, j, p))
            && (forall j :: 0 <= j < NR_QUEUES && j != k ==> HasEligible(r.task, r.q[j]) == OthersIn(s, j, p))
            && FirstEligible(r.task, r.q[k]) ==
               (var l := Remove(s.q[k], p);
                if OthersIn(s, k, p) then FirstEligible(s.task, l) else if !s.task[p].done then |l| else |l| + 1)
  {
    hide Remove, FirstEligible;
    var p, r, c := s.current, Requeued(s), Charged(s);
    var k := QIdx(s.task[p]);
    OnlyOwnQueue(s, p);
    forall j | 0 <= j < NR_QUEUES ensures c.q[j] == Remove(s.q[j], p) {
      if j != s.task[p].curQueue { assert p !in s.q[j]; }
    }
    forall j | 0 <= j < NR_QUEUES
      ensures FirstEligible(c.task, c.q[j]) == FirstEligible(s.task, c.q[j]) == FirstEligible(r.task, c.q[j])
    {
      EligibleSame(s.task, c.task, c.q[j]);
      EligibleSame(s.task, r.task, c.q[j]);
    }
    EligibleAppend(r.task, c.q[k], p);
  }

  /** The self-loop branch is entered exactly when nobody else at the incumbent's level or above can run. */
  lemma {:induction false} SelfLoopIff(s: Sys)
    requires Inner(s) && MayRun(s)
    ensures var p := s.current;
            Picked(Requeued(s), 0) == p <==>
            !s.task[p].done && forall j :: 0 <= j <= QIdx(s.task[p]) ==> !OthersIn(s, j, p)
  {
    hide Remove, FirstEligible, Charged, Requeued, QueueOk, AllQueued, OnlyRuns;
    var p, r := s.current, Requeued(s);
    var k, m := QIdx(s.task[p]), PickQueue(r.task, r.q, 0);
    RequeuedQueues(s);
    RemoveOwn(s, p);
    assert m == k <==> HasEligible(r.task, r.q[k]) && forall j :: 0 <= j < k ==> !OthersIn(s, j, p);
    var l, i := Remove(s.q[k], p), FirstEligible(r.task, r.q[k]);
    assert i <= |l| ==> (r.q[k][i] == p <==> i == |l|);
    if Picked(r, 0) == p {
      assert p in r.q[m];
      assert m == k;
    }
  }

  lemma {:induction false} RemoveOwn(s: Sys, p: int)
    requires Base(s)
    ensures forall j :: 0 <= j < NR_QUEUES ==> p !in Remove(s.q[j], p)
  {
    forall j | 0 <= j < NR_QUEUES ensures p !in Remove(s.q[j], p) {
      assert QueueOk(s, j);
      RemoveMembers(s.q[j], p);
    }
  }

  /** In the self-loop branch a shared queue is left as it was, and an unshared one is emptied. */
  lemma {:induction false} SelfLoopQueues(s: Sys)
    requires Inner(s) && MayRun(s) && Picked(Requeued(s), 0) == s.current
    ensures var p, r := s.current, Requeued(s);
            var k := QIdx(s.task[p]);
            var l := Remove(s.q[k], p);
            AfterPick(r, 0) == if l == [] then r.(q := r.q[k := []]) else r
  {
    hide Remove, FirstEligible, Charged, Requeued, QueueOk, AllQueued, OnlyRuns, OthersIn;
    var p, r := s.current, Requeued(s);
    var k := QIdx(s.task[p]);
    var l := Remove(s.q[k], p);
    RequeuedQueues(s);
    SelfLoopIff(s);
    assert PickQueue(r.task, r.q, 0) == k;
    assert r.q[k] == l + [p];
    if l != [] {
      assert Rotated(l + [p], |l|) == l + [p] by {
        assert (l + [p])[|l| + 1..] == [] && (l + [p])[..|l|] == l;
      }
      assert r.q[k := l + [p]] == r.q;
    }
  }

  /** A pick from queue k on depends on nothing below k. */
  lemma {:induction false} PickQueueAbove(task: seq<Task>, q: seq<seq<int>>, q': seq<seq<int>>, k: nat)
    requires |q| == |q'| == NR_QUEUES && k <= NR_QUEUES && forall j :: k <= j < NR_QUEUES ==> q[j] == q'[j]
    ensures PickQueue(task, q, k) == PickQueue(task, q', k)
    decreases NR_QUEUES - k
  {
    if k < NR_QUEUES && !HasEligible(task, q[k]) { PickQueueAbove(task, q, q', k + 1); }
  }

  lemma {:induction false} PickQueueFound(task: seq<Task>, q: seq<seq<int>>, k: nat)
    requires |q| == NR_QUEUES && k <= NR_QUEUES
    ensures PickQueue(task, q, k) < NR_QUEUES <==> exists j :: k <= j < NR_QUEUES && HasEligible(task, q[j])
  {
  }

  /** In the self-loop branch the search below finds somebody exactly when somebody below can run. */
  lemma {:induction false} LowerFound(s: Sys)
    requires Inner(s) && MayRun(s) && Picked(Requeued(s), 0) == s.current
    ensures var p, s3 := s.current, AfterPick(Requeued(s), 0);
            var k := QIdx(s.task[p]);
            Picked(s3, k + 1) != NONE <==> exists j :: k < j < NR_QUEUES && OthersIn(s, j, p)
  {
    hide PickQueue, HasEligible, Rotated, MayRun, QIdx;
    hide Remove, FirstEligible, QueueOk, AllQueued, OnlyRuns, OthersIn, Requeued, Charged;
    var p, r := s.current, Requeued(s);
    var k := QIdx(s.task[p]);
    var s3 := AfterPick(r, 0);
    RequeuedQueues(s);
    SelfLoopQueues(s);
    PickedRange(s3, k + 1);
    PickQueueAbove(r.task, r.q, s3.q, k + 1);
    PickQueueFound(r.task, r.q, k + 1);
  }

  /** The re-enqueue in the self-loop branch meets a task that is still linked exactly in the hazard. */
  lemma {:induction false} HazardIff(s: Sys)
    requires Inner(s) && MayRun(s)
    ensures EnqueuesTwice(s) <==> Hazard(s)
  {
    hide PickQueue, HasEligible, Rotated, QIdx, Picked, OffQueues;
    hide Remove, FirstEligible, QueueOk, AllQueued, OnlyRuns, OthersIn, Requeued, Charged;
    var p, r, c := s.current, Requeued(s), Charged(s);
    var k := QIdx(s.task[p]);
    var l := Remove(s.q[k], p);
    SelfLoopIff(s);
    RequeuedQueues(s);
    ChargedBase(s);
    PreemptsIff(s);
    if Picked(r, 0) == p {
      SelfLoopQueues(s);
      var s3 := AfterPick(r, 0);
      var s4 := AfterPick(s3, k + 1);
      LowerFound(s);
      OffBelow(s, s4);
    }
  }

  /** A queued task that does not run is on the queue of its tier and level. */
  lemma {:induction false} QueueIsOwn(s: Sys, x: int, m: nat, t: int)
    requires Base(s) && AllQueued(s, x) && OnlyRuns(s, x) && m < NR_QUEUES && t in s.q[m] && t != x
    ensures ReadyTask(s, t) && m == QIdx(s.task[t])
  {
    assert QueueOk(s, m) && OnIt(s, m, t);
    assert RunningTask(s, t) || ReadyTask(s, t);
    var k := QIdx(s.task[t]);
    assert QueueOk(s, k) && OnIt(s, k, t);
  }

  /** schedule preempts exactly when somebody strictly above the incumbent can run. */
  lemma {:induction false} PreemptsIff(s: Sys)
    requires Inner(s) && MayRun(s)
    ensures Preempts(s) <==> exists j :: 0 <= j < QIdx(s.task[s.current]) && OthersIn(s, j, s.current)
  {
    hide Remove, FirstEligible, QueueOk, AllQueued, OnlyRuns, OthersIn, Requeued, Charged;
    var p, c := s.current, Charged(s);
    var m := PickQueue(c.task, c.q, 0);
    RequeuedQueues(s);
    ChargedBase(s);
    PickedRange(c, 0);
    if m < NR_QUEUES {
      var t := Picked(c, 0);
      assert t in c.q[m];
      QueueIsOwn(c, p, m, t);
    }
  }

  /** Below its level the incumbent is on no queue. */
  lemma {:induction false} OffBelow(s: Sys, s4: Sys)
    requires Inner(s) && MayRun(s) && Picked(Requeued(s), 0) == s.current
    requires s4 == AfterPick(AfterPick(Requeued(s), 0), QIdx(s.task[s.current]) + 1)
    ensures OffQueues(s4, s.current) <==> Remove(s.q[QIdx(s.task[s.current])], s.current) == []
    ensures OffQueues(s4, s.current) <==> OffQueues(AfterPick(Requeued(s), 0), s.current)
  {
    hide Remove, FirstEligible, QueueOk, AllQueued, OnlyRuns, OthersIn, Requeued, Charged;
    var p, r := s.current, Requeued(s);
    var k := QIdx(s.task[p]);
    var l, s3 := Remove(s.q[k], p), AfterPick(r, 0);
    RequeuedQueues(s);
    RequeuedSettled(s);
    SelfLoopQueues(s);
    RemoveOwn(s, p);
    PickBase(r, 0);
    PickBase(s3, k + 1);
    assert s4.q[k] == s3.q[k] == if l == [] then [] else l + [p];
    assert l != [] ==> p in s4.q[k];
    assert forall j :: 0 <= j < NR_QUEUES && j != k ==> p !in s3.q[j];
  }

  /** The self-loop branch, outside the hazard, keeps everything. */
  lemma {:induction false} SelfLoopInv(s: Sys)
    requires Inner(s) && MayRun(s) && Picked(Requeued(s), 0) == s.current
    requires Picked(AfterPick(Requeued(s), 0), QIdx(s.task[s.current]) + 1) == NONE
             || Remove(s.q[QIdx(s.task[s.current])], s.current) == []
    ensures Inv(SelfLoop(s))
  {
    hide Remove, FirstEligible, QueueOk, AllQueued, OnlyRuns, Requeued, Charged, Rotated;
    var p, r := s.current, Requeued(s);
    var below, s3 := QIdx(s.task[p]) + 1, AfterPick(r, 0);
    RequeuedSettled(s);
    PickBase(r, 0);
    SameTasks(r, s3, NONE, p);
    var low := Picked(s3, below);
    PickBase(s3, below);
    if low == NONE {
      SliceInner(s3, p, Slice(s3.task[p]));
    } else {
      var s4 := AfterPick(s3, below);
      OffBelow(s, s4);
      PickBase(s3, below);
      LoopSwitch(s3, s4, p, low, below);
    }
  }

  lemma {:induction false} SliceInner(s: Sys, p: int, n: int)
    requires Base(s) && AllQueued(s, p) && OnlyRuns(s, NONE) && ReadyTask(s, p) && s.current == p
    ensures Inv(s.(task := s.task[p := s.task[p].(timeslice := n)]))
  {
    var s' := s.(task := s.task[p := s.task[p].(timeslice := n)]);
    FieldsBase(s, p, s'.task[p]);
    assert forall x :: ReadyTask(s', x) ==> ReadyTask(s, x);
    assert forall x :: RunningTask(s', x) ==> RunningTask(s, x);
    assert ReadyTask(s', p);
  }

  lemma {:induction false} LoopSwitch(s3: Sys, s4: Sys, p: int, low: int, below: nat)
    requires Base(s3) && AllQueued(s3, p) && OnlyRuns(s3, NONE) && ReadyTask(s3, p)
    requires Base(s4) && s4.task == s3.task && OffQueues(s4, p) && OffQueues(s3, p) && below <= NR_QUEUES
    requires exists k :: below <= k < NR_QUEUES && low in s3.q[k]
    requires forall x, k :: 0 <= k < NR_QUEUES && x in s3.q[k] && x != low ==> x in s4.q[k]
    ensures NONE <= low <= IDLE && Inv(SwitchTo(Enqueue(s4, p), low))
  {
    hide QueueOk;
    var k :| below <= k < NR_QUEUES && low in s3.q[k];
    QueuedIsReady(s3, k, low);
    EnqueueBase(s4, p);
    var s5 := Enqueue(s4, p);
    forall x | ReadyTask(s5, x) && x != low ensures x in s5.q[QIdx(s5.task[x])] { assert x != p ==> ReadyTask(s3, x); }
    assert forall x :: RunningTask(s5, x) ==> RunningTask(s3, x);
    assert ReadyTask(s5, low);
    SettledSwitch(s5, low);
  }

  lemma {:induction false} QueuedIsReady(s: Sys, m: nat, t: int)
    requires Base(s) && OnlyRuns(s, NONE) && m < NR_QUEUES && t in s.q[m]
    ensures ReadyTask(s, t)
  {
    assert QueueOk(s, m) && OnIt(s, m, t);
    assert RunningTask(s, t) || ReadyTask(s, t);
  }

  /** schedule keeps the invariant, from any state it is entered in, outside the hazard. */
  lemma {:induction false} ScheduleInv(s: Sys)
    requires Inner(s) && !Hazard(s)
    ensures Inv(Schedule(s))
  {
    hide Remove, FirstEligible, QueueOk, AllQueued, OnlyRuns, Requeued, Charged, Rotated, OthersIn, PickAndSwitch, SelfLoop, Hazard;
    var p := s.current;
    if !MayRun(s) {
      AbsentSettled(s);
      SwitchInv(s);
      DequeueBase(s, p);
      SameTasks(s, Dequeue(s, p), NONE, p);
      WaitingSettled(s);
    } else {
      RequeuedSettled(s);
      SwitchInv(Requeued(s));
      ChargedBase(s);
      HazardIff(s);
      if !Preempts(s) && Charged(s).task[p].timeslice <= 0 && Picked(Requeued(s), 0) == p {
        OffBelow(s, AfterPick(AfterPick(Requeued(s), 0), QIdx(s.task[p]) + 1));
        SelfLoopInv(s);
      }
    }
  }

  lemma {:induction false} WaitingSettled(s: Sys)
    requires Inner(s) && !MayRun(s)
    ensures s.current != IDLE && s.task[s.current].state == Waiting ==> Inv(PickAndSwitch(Dequeue(s, s.current)))
    ensures s.current == IDLE && Picked(s, 0) == NONE ==> Inv(s)
    ensures s.current != IDLE ==> s.task[s.current].state == Exited || s.task[s.current].state == Waiting
  {
    hide Remove, FirstEligible, PickAndSwitch;
    AbsentSettled(s);
    var p := s.current;
    if p != IDLE && s.task[p].state == Waiting {
      DequeueBase(s, p);
      SameTasks(s, Dequeue(s, p), NONE, p);
      var d := Dequeue(s, p);
      assert forall x :: ReadyTask(d, x) ==> x != p;
      SwitchInv(d);
    }
    assert p != IDLE ==> !ReadyTask(s, p) && !RunningTask(s, p);
  }
}
