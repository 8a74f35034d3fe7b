/**
 The scheduler and the mutex as the kernel runs them: five linked run queues and a wait queue that
 share the tasks' `next` links, updated in place. Each operation is proved against its meaning in Tasks.dfy.
 */
module Kernel {
  import opened Basics
  import opened Tasks
  import opened SchedInv
  import opened SchedSteps
  import opened SchedRuns
  import opened Links

  lemma {:induction false} RotateBase(s: Sys, k: nat)
    requires Base(s) && k < NR_QUEUES && s.q[k] != []
    ensures Base(s.(q := s.q[k := s.q[k][1..] + [s.q[k][0]]]))
  {
    var l := s.q[k];
    var s' := s.(q := s.q[k := l[1..] + [l[0]]]);
    forall j | 0 <= j < NR_QUEUES ensures QueueOk(s', j) {
      assert QueueOk(s, j);
      forall x <- s'.q[j] ensures OnIt(s', j, x) { assert x in s.q[j]; assert OnIt(s, j, x); }
    }
    forall x <- s'.mutex.waitq ensures IsWaiter(s', x) { assert IsWaiter(s, x); }
  }

  lemma {:induction false} RotateStep(l: seq<int>, i: nat)
    requires i < |l|
    ensures var r := l[i..] + l[..i]; r[1..] + [r[0]] == l[i + 1..] + l[..i + 1]
  {
  }

  lemma {:induction false} RotatedIs(l: seq<int>, i: nat)
    requires i < |l|
    ensures var r := l[i..] + l[..i]; |r| == |l| && r[0] == l[i] && Rotated(l, i) == if |r| == 1 then [] else r[1..] + [r[0]]
  {
    var r := l[i..] + l[..i];
    assert r[1..] + [r[0]] == l[i + 1..] + l[..i] + [l[i]];
  }

  lemma {:induction false} ListsTasks(next: seq<int>, head: seq<int>, tail: seq<int>, waitHead: int, s: Sys, s': Sys)
    requires Lists(next, head, tail, waitHead, s) && Shape(s') && s'.q == s.q && s'.mutex.waitq == s.mutex.waitq
    ensures Lists(next, head, tail, waitHead, s')
  {
  }

  lemma {:induction false} BaseShape(s: Sys)
    requires Base(s)
    ensures Shape(s)
  {
  }

  lemma {:induction false} NonePicked(s: Sys, from: nat)
    requires Shape(s) && from <= NR_QUEUES && Picked(s, from) == NONE
    ensures AfterPick(s, from) == s
  {
    PickedRange(s, from);
  }

  lemma {:induction false} SwitchIs(s: Sys)
    requires Shape(s)
    ensures NONE <= Picked(s, 0) <= IDLE && Tasks.PickAndSwitch(s) == SwitchTo(AfterPick(s, 0), Picked(s, 0))
  {
    PickedRange(s, 0);
  }

  /** Outside the hazard the self-loop branch finds the incumbent off its queue, or finds nobody below. */
  lemma {:induction false} LoopQueue(s: Sys)
    requires Inner(s) && !Hazard(s) && MayRun(s)
    requires !Preempts(s) && Charged(s).task[s.current].timeslice <= 0 && Picked(Requeued(s), 0) == s.current
    ensures var p, k, s3 := s.current, QIdx(s.task[s.current]), AfterPick(Requeued(s), 0);
            && k == QIdx(s3.task[p])
            && (Picked(s3, k + 1) != NONE ==> OffQueues(AfterPick(s3, k + 1), p) && ReadyTask(AfterPick(s3, k + 1), p))
  {
    hide Hazard, QueueOk, AllQueued, OnlyRuns, Remove, FirstEligible, PickQueue, Picked, AfterPick, Requeued, Charged, Preempts;
    var k, s3 := QIdx(s.task[s.current]), AfterPick(Requeued(s), 0);
    HazardIff(s);
    RequeuedSettled(s);
    PickBase(Requeued(s), 0);
    PickBase(s3, k + 1);
  }

  /** Taking a ready task off its queue and changing it leaves it ready to be queued. */
  lemma {:induction false} Moving(s: Sys, t: int, v: Task)
    requires Inner(s) && Slot(t) && s.task[t].state == Ready && t != s.current && SamePlace(s.task[t], v)
    ensures var d := Dequeue(s, t);
            var e := d.(task := d.task[t := v]);
            d.task == s.task && Base(e) && ReadyTask(e, t) && OffQueues(e, t)
  {
    hide Remove, QueueOk, AllQueued, OnlyRuns;
    DequeueBase(s, t);
    var d := Dequeue(s, t);
    assert t in d.mutex.waitq ==> IsWaiter(d, t);
    FieldsBase(d, t, v);
  }

  lemma {:induction false} MovingBase(s: Sys, t: int, v: Task)
    requires Base(s) && Slot(t) && SamePlace(s.task[t], v)
    ensures Base(s.(task := s.task[t := v]))
  {
    FieldsBase(s, t, v);
  }

  /** Leaving the queue and changing the state may be done in either order. */
  lemma {:induction false} LeavingOrder(s: Sys, st: State)
    requires Shape(s)
    ensures Dequeue(WithState(s, s.current, st), s.current) == WithState(Dequeue(s, s.current), s.current, st)
  {
  }

  function WithoutParent(v: Task, t: int): Task {
    if v.inUse && v.parent == t then v.(parent := NONE) else v
  }

  lemma {:induction false} AccountSame(task: seq<Task>, p: int)
    requires 0 <= p < |task|
    ensures task[p].quota == 0 ==> task[p := Account(task[p])] == task
  {
  }

  /** A waiting parent is on no list, so it may be queued. */
  lemma {:induction false} Waking(s: Sys, p: int, v: Task)
    requires Inner(s) && Slot(p) && s.task[p].state == Waiting && p !in s.mutex.waitq && v.inUse == s.task[p].inUse && v.state == Ready
    ensures var e := s.(task := s.task[p := v]); Base(e) && ReadyTask(e, p) && OffQueues(e, p)
  {
    forall k | 0 <= k < NR_QUEUES ensures p !in s.q[k] { assert QueueOk(s, k) && (p in s.q[k] ==> OnIt(s, k, p)); }
    FieldsBase(s, p, v);
  }

  lemma {:induction false} NotWaiting(s: Sys, t: int)
    requires Base(s) && 0 <= t <= IDLE && s.task[t].state != Waiting
    ensures t !in s.mutex.waitq
  {
    assert t in s.mutex.waitq ==> IsWaiter(s, t);
  }

  lemma {:induction false} WaitHead(next: seq<int>, head: seq<int>, tail: seq<int>, waitHead: int, s: Sys)
    requires Lists(next, head, tail, waitHead, s) && Base(s)
    ensures waitHead == NONE <==> s.mutex.waitq == []
    ensures s.mutex.waitq != [] ==> waitHead == s.mutex.waitq[0] && IsWaiter(s, waitHead)
  {
    assert s.mutex.waitq != [] ==> s.mutex.waitq[0] in s.mutex.waitq;
  }

  lemma {:induction false} Popping(r: Sys, s: Sys)
    requires Inner(r) && s == r.(mutex := r.mutex.(locked := false, holder := NONE))
    ensures Base(s)
  {
    MutexInner(r, s.mutex);
  }

  lemma {:induction false} Popped(r: Sys, s: Sys, w: int)
    requires Inner(r) && r.mutex.waitq != [] && w == r.mutex.waitq[0]
    requires s == r.(mutex := r.mutex.(locked := false, holder := NONE, waitq := r.mutex.waitq[1..]))
    ensures Slot(w) && Shape(s)
    ensures var e := WithState(s, w, Ready); Base(e) && ReadyTask(e, w) && OffQueues(e, w)
  {
    assert IsWaiter(r, w);
    forall t <- s.mutex.waitq ensures IsWaiter(r, t) { assert t in r.mutex.waitq; }
    MutexInner(r, s.mutex);
    forall k | 0 <= k < NR_QUEUES ensures w !in s.q[k] { assert QueueOk(s, k) && (w in s.q[k] ==> OnIt(s, k, w)); }
    FieldsBase(s, w, WithState(s, w, Ready).task[w]);
  }

  lemma {:induction false} ListsPush(next: seq<int>, head: seq<int>, tail: seq<int>, waitHead: int, s: Sys,
      next': seq<int>, me: int, s': Sys)
    requires Lists(next, head, tail, waitHead, s) && Base(s) && Slot(me) && OffQueues(s, me) && me !in s.mutex.waitq && Shape(s')
    requires s'.q == s.q && s'.mutex.waitq == [me] + s.mutex.waitq && next' == next[me := waitHead]
    ensures Lists(next', head, tail, me, s')
  {
    forall k | 0 <= k < NR_QUEUES ensures IsList(next', head[k], tail[k], s'.q[k]) {
      assert IsList(next, head[k], tail[k], s.q[k]);
      LinkedFrame(next, next', s.q[k]);
    }
    var w, w' := s.mutex.waitq, s'.mutex.waitq;
    forall i | 0 <= i < |w'| ensures LinkAt(next', w', i) {
      if i > 0 { assert LinkAt(next, w, i - 1) && w[i - 1] in w; }
    }
  }

  lemma {:induction false} ListsPop(next: seq<int>, head: seq<int>, tail: seq<int>, waitHead: int, s: Sys, s': Sys)
    requires Lists(next, head, tail, waitHead, s) && Base(s) && s.mutex.waitq != [] && Shape(s')
    requires LinkAt(next, s.mutex.waitq, 0) && s'.q == s.q && s'.mutex.waitq == s.mutex.waitq[1..]
    ensures Lists(next[waitHead := NONE], head, tail, next[waitHead], s')
  {
    var w := s.mutex.waitq;
    var next' := next[w[0] := NONE];
    assert w[0] in w && IsWaiter(s, w[0]);
    LinkedRemove(next, w, 0);
    forall k | 0 <= k < NR_QUEUES ensures IsList(next', head[k], tail[k], s'.q[k]) {
      assert IsList(next, head[k], tail[k], s.q[k]) && QueueOk(s, k);
      assert w[0] in s.q[k] ==> OnIt(s, k, w[0]);
      LinkedFrame(next, next', s.q[k]);
    }
  }

  lemma {:induction false} Creating(s: Sys, t: int, v: Task)
    requires Inner(s) && Slot(t) && !s.task[t].inUse && v.inUse && v.state == Ready
    ensures var e := s.(task := s.task[t := v]); Base(e) && ReadyTask(e, t) && OffQueues(e, t)
  {
    forall k | 0 <= k < NR_QUEUES ensures t !in s.q[k] { assert QueueOk(s, k) && (t in s.q[k] ==> OnIt(s, k, t)); }
    assert t in s.mutex.waitq ==> IsWaiter(s, t);
    FieldsBase(s, t, v);
  }

  class Scheduler {
    var next: seq<int>
    var rqHead: seq<int>
    var rqTail: seq<int>
    var task: seq<Task>
    var current: int
    var locked: bool
    var holder: int
    var waitHead: int
    var inherit: bool
    var ticks: nat
    ghost var q: seq<seq<int>>
    ghost var waitq: seq<int>

    /** The system these fields stand for. */
    ghost function Abs(): Sys
      reads this
    {
      Sys(q, task, current, Mutex(locked, holder, waitq, inherit), ticks)
    }

    ghost predicate Linked()
      reads this
    {
      Lists(next, rqHead, rqTail, waitHead, Abs())
    }

    /** enqueue_task. */
    method Enqueue(t: int)
      requires Linked() && Base(Abs()) && ReadyTask(Abs(), t) && OffQueues(Abs(), t)
      modifies this`next, this`rqHead, this`rqTail, this`task, this`q
      ensures Linked() && Abs() == Tasks.Enqueue(old(Abs()), t)
      ensures Slot(t) && var k := QIdx(old(task)[t]); NONE <= old(rqTail)[k] <= IDLE && next == EnqueueLinks(old(next), old(rqTail)[k], t)
    {
      hide Lists, Base, ReadyTask, OffQueues, QIdx;
      EnqueuedLists(next, rqHead, rqTail, waitHead, Abs(), t);
      var k := QIdx(task[t]);
      task := task[t := task[t].(curQueue := k)];
      next := next[t := NONE];
      if rqTail[k] != NONE {
        next := next[rqTail[k] := t];
        rqTail := rqTail[k := t];
      } else {
        rqHead := rqHead[k := t];
        rqTail := rqTail[k := t];
      }
      q := q[k := q[k] + [t]];
    }

    /** dequeue_task: a task on no queue is left alone. */
    method Dequeue(t: int)
      requires Linked() && Base(Abs()) && 0 <= t <= IDLE
      modifies this`next, this`rqHead, this`rqTail, this`q
      ensures Linked() && Abs() == Tasks.Dequeue(old(Abs()), t)
    {
      hide Tasks.Remove, QueueOk, IsWaiter;
      ghost var s := Abs();
      var k := task[t].curQueue;
      if k < 0 || k >= NR_QUEUES {
        return;
      }
      ghost var l := q[k];
      Apart(s, k);
      assert IsList(next, rqHead[k], rqTail[k], l);
      if rqHead[k] == t {
        assert l[0] in l;
        UnlinkHead(k, t);
        return;
      }
      var prev := rqHead[k];
      ghost var i := 0;
      if l != [] { assert LinkAt(next, l, 0) && l[0] in l; }
      while prev != NONE && next[prev] != t
        invariant i <= |l| && prev == (if i < |l| then l[i] else NONE)
        invariant i < |l| ==> prev != NONE && LinkAt(next, l, i)
        invariant forall j :: 0 <= j <= i && j < |l| ==> l[j] != t
        decreases |l| - i
      {
        prev := next[prev];
        i := i + 1;
        if i < |l| { assert LinkAt(next, l, i) && l[i] in l; }
      }
      if prev != NONE {
        UnlinkAfter(k, prev, t, i);
      } else {
        assert t !in l;
        assert s.q[k := l] == s.q;
      }
    }

    /** The branch of dequeue_task for the head of the queue. */
    method UnlinkHead(k: nat, t: int)
      requires Linked() && Base(Abs()) && k < NR_QUEUES && q[k] != [] && rqHead[k] == t && 0 <= t < |next|
      modifies this`next, this`rqHead, this`rqTail, this`q
      ensures Linked() && q == old(q)[k := Tasks.Remove(old(q)[k], t)]
    {
      hide Tasks.Remove, Lists, Base;
      UnheadedLists(next, rqHead, rqTail, waitHead, Abs(), k);
      rqHead := rqHead[k := next[t]];
      if rqHead[k] == NONE {
        rqTail := rqTail[k := NONE];
      }
      next := next[t := NONE];
      q := q[k := q[k][1..]];
    }

    /** The branch of dequeue_task for a task behind `prev`. */
    method UnlinkAfter(k: nat, prev: int, t: int, ghost i: nat)
      requires Linked() && Base(Abs()) && k < NR_QUEUES && i < |q[k]| && prev == q[k][i] && LinkAt(next, q[k], i)
      requires 0 <= t < |next| && next[prev] == t
      modifies this`next, this`rqHead, this`rqTail, this`q
      ensures Linked() && q == old(q)[k := Tasks.Remove(old(q)[k], t)]
    {
      hide Tasks.Remove, Lists, Base;
      UnlinkedLists(next, rqHead, rqTail, waitHead, Abs(), k, i);
      next := next[prev := next[t]];
      if rqTail[k] == t {
        rqTail := rqTail[k := prev];
      }
      next := next[t := NONE];
      q := q[k := Tasks.Remove(q[k], t)];
    }

    /** peek_next_task. */
    method Peek() returns (t: int)
      requires Linked() && Base(Abs())
      ensures t == Picked(Abs(), 0)
    {
      hide QueueOk, IsWaiter, FirstEligible;
      for k := 0 to NR_QUEUES
        invariant PickQueue(task, q, 0) >= k
      {
        ghost var l := q[k];
        Apart(Abs(), k);
        assert IsList(next, rqHead[k], rqTail[k], l);
        t := rqHead[k];
        ghost var i := 0;
        if l != [] { assert l[0] in l; }
        while t != NONE
          invariant i <= |l| && t == (if i < |l| then l[i] else NONE) && (i < |l| ==> t != NONE)
          invariant forall j :: 0 <= j < i ==> !Eligible(task, l[j])
          decreases |l| - i
        {
          assert LinkAt(next, l, i) && l[i] in l;
          if !task[t].done {
            assert FirstEligible(task, l) == i;
            assert HasEligible(task, l);
            return;
          }
          t := next[t];
          i := i + 1;
          if i < |l| { assert l[i] in l; }
        }
        assert !HasEligible(task, l);
      }
      t := NONE;
    }

    /** The probe of pick_next_task: has the queue of this head a task with quota left? */
    method Probe(head: int, ghost l: seq<int>) returns (found: bool)
      requires head == HeadOf(l) && Links.Linked(next, l) && |next| == |task| && forall t <- l :: Slot(t)
      ensures found == HasEligible(task, l)
    {
      hide FirstEligible;
      var probe := head;
      ghost var i := 0;
      if l != [] { assert l[0] in l; }
      while probe != NONE
        invariant i <= |l| && probe == (if i < |l| then l[i] else NONE) && (i < |l| ==> probe != NONE)
        invariant forall j :: 0 <= j < i ==> !Eligible(task, l[j])
        decreases |l| - i
      {
        assert LinkAt(next, l, i) && l[i] in l;
        if !task[probe].done {
          assert FirstEligible(task, l) <= i;
          return true;
        }
        probe := next[probe];
        i := i + 1;
        if i < |l| { assert l[i] in l; }
      }
      found := false;
    }

    /** Move the front of queue k, which has at least two members, to its back. */
    method Rotate(k: nat)
      requires Linked() && Base(Abs()) && k < NR_QUEUES && |q[k]| >= 2
      modifies this`next, this`rqHead, this`rqTail, this`q
      ensures Linked() && Base(Abs()) && q == old(q)[k := old(q)[k][1..] + [old(q)[k][0]]]
    {
      hide QueueOk, IsWaiter;
      ghost var s, l := Abs(), q[k];
      Apart(s, k);
      assert IsList(next, rqHead[k], rqTail[k], l);
      assert LinkAt(next, l, 0) && LinkAt(next, l, |l| - 1) && l[0] in l && l[|l| - 1] in l;
      LinkedRotate(next, l);
      var t := rqHead[k];
      rqHead := rqHead[k := next[t]];
      next := next[rqTail[k] := t];
      rqTail := rqTail[k := t];
      next := next[t := NONE];
      ghost var l' := l[1..] + [l[0]];
      q := q[k := l'];
      ListsUpdate(old(next), old(rqHead), old(rqTail), waitHead, s, next, rqHead[k], rqTail[k], k, l', Abs());
      RotateBase(s, k);
    }

    /** Take the only member off queue k. */
    method Clear(k: nat)
      requires Linked() && Base(Abs()) && k < NR_QUEUES
      modifies this`rqHead, this`rqTail, this`q
      ensures Linked() && q == old(q)[k := []]
    {
      hide QueueOk, IsWaiter;
      ghost var s := Abs();
      rqHead := rqHead[k := NONE];
      rqTail := rqTail[k := NONE];
      q := q[k := []];
      ListsUpdate(next, old(rqHead), old(rqTail), waitHead, s, next, NONE, NONE, k, [], Abs());
    }

    /** pick_next_task when minQ is 0, and pick_next_lower. */
    method PickFrom(minQ: nat) returns (t: int)
      requires Linked() && Base(Abs()) && minQ <= NR_QUEUES
      modifies this`next, this`rqHead, this`rqTail, this`q
      ensures t == Picked(old(Abs()), minQ)
      ensures Linked() && Abs() == AfterPick(old(Abs()), minQ)
    {
      hide QueueOk, IsWaiter, FirstEligible;
      for k := minQ to NR_QUEUES
        invariant Linked() && Base(Abs()) && Abs() == old(Abs())
        invariant PickQueue(task, q, minQ) >= k
      {
        ghost var l := q[k];
        Apart(Abs(), k);
        assert IsList(next, rqHead[k], rqTail[k], l);
        if l != [] { assert l[0] in l; }
        if rqHead[k] == NONE {
          assert !HasEligible(task, l);
          continue;
        }
        if task[rqHead[k]].done {
          var found := Probe(rqHead[k], l);
          if !found {
            continue;
          }
        } else {
          assert Eligible(task, l[0]);
        }
        assert HasEligible(task, l);
        assert PickQueue(task, q, minQ) == k;
        t := TurnTo(k);
        return;
      }
      t := NONE;
    }

    /** Rotate queue k until its front has quota left, and take that task's turn. */
    method TurnTo(k: nat) returns (t: int)
      requires Linked() && Base(Abs()) && k < NR_QUEUES && HasEligible(task, q[k])
      modifies this`next, this`rqHead, this`rqTail, this`q
      ensures t == old(q)[k][FirstEligible(task, old(q)[k])]
      ensures Linked() && q == old(q)[k := Rotated(old(q)[k], FirstEligible(task, old(q)[k]))]
    {
      ghost var l, n := q[k], FirstEligible(task, q[k]);
      hide QueueOk, IsWaiter, FirstEligible, Base, IsList, Lists, Rotated;
      t := SkipExhausted(k);
      RotatedIs(l, n);
      TakeTurn(k, t, l[n..] + l[..n]);
    }

    /** The rotation past the tasks without quota left. */
    method SkipExhausted(k: nat) returns (t: int)
      requires Linked() && Base(Abs()) && k < NR_QUEUES && HasEligible(task, q[k])
      modifies this`next, this`rqHead, this`rqTail, this`q
      ensures Linked() && Base(Abs())
      ensures var l, n := old(q)[k], FirstEligible(task, old(q)[k]); t == l[n] && q == old(q)[k := l[n..] + l[..n]]
    {
      assert |task| == MAX_TASKS + 1;
      hide QueueOk, IsWaiter, FirstEligible, Base, IsList, Lists, Linked;
      ghost var l, n, i := q[k], FirstEligible(task, q[k]), 0;
      t := Front(k);
      assert l[0..] + l[..0] == l && old(q)[k := l] == old(q);
      while task[t].done
        invariant i <= n && Linked() && Base(Abs()) && q == old(q)[k := l[i..] + l[..i]] && t == l[i] && Slot(t)
        decreases n - i
      {
        assert Eligible(task, l[n]) && !Eligible(task, l[i]);
        RotateStep(l, i);
        Rotate(k);
        i := i + 1;
        t := Front(k);
      }
      assert Eligible(task, l[i]);
    }

    /** rq_head[k] of a queue that is not empty. */
    method Front(k: nat) returns (t: int)
      requires Linked() && Base(Abs()) && k < NR_QUEUES && q[k] != []
      ensures t == q[k][0] && Slot(t)
    {
      hide QueueOk, IsWaiter;
      Apart(Abs(), k);
      assert IsList(next, rqHead[k], rqTail[k], q[k]);
      Member(q[k], 0);
      t := rqHead[k];
    }

    /** The turn of the front task t: to the back, or off the queue if it is alone. */
    method TakeTurn(k: nat, t: int, ghost l: seq<int>)
      requires Linked() && Base(Abs()) && k < NR_QUEUES && q[k] == l != [] && t == l[0]
      modifies this`next, this`rqHead, this`rqTail, this`q
      ensures Linked() && q == old(q)[k := if |l| == 1 then [] else l[1..] + [l[0]]]
    {
      hide QueueOk, IsWaiter;
      Apart(Abs(), k);
      assert IsList(next, rqHead[k], rqTail[k], l) && LinkAt(next, l, 0);
      assert |l| >= 2 ==> l[1] in l;
      if next[t] != NONE {
        Rotate(k);
      } else {
        Clear(k);
      }
    }

    /** switch_to_task: from here on `n` runs. */
    method SwitchTo(n: int)
      requires Linked() && Shape(Abs()) && 0 <= n <= IDLE
      modifies this`current, this`task
      ensures Linked() && Abs() == Tasks.SwitchTo(old(Abs()), n)
    {
      current := n;
      task := task[n := task[n].(state := Running, timeslice := Slice(task[n]))];
      ListsTasks(next, rqHead, rqTail, waitHead, old(Abs()), Abs());
    }

    /** Pick, and switch to the picked task or to idle. */
    method PickAndSwitch()
      requires Linked() && Base(Abs())
      modifies this`next, this`rqHead, this`rqTail, this`q, this`current, this`task
      ensures Linked() && Abs() == Tasks.PickAndSwitch(old(Abs()))
    {
      hide Picked, AfterPick, Lists, QueueOk, Base;
      BaseShape(Abs());
      PickedRange(Abs(), 0);
      var cand := PickFrom(0);
      if cand == NONE {
        cand := IDLE;
      }
      SwitchTo(cand);
    }

    method SetState(t: int, st: State)
      requires Linked() && 0 <= t <= IDLE
      modifies this`task
      ensures Linked() && Abs() == WithState(old(Abs()), t, st)
    {
      task := task[t := task[t].(state := st)];
      ListsTasks(next, rqHead, rqTail, waitHead, old(Abs()), Abs());
    }

    method SetSlice(t: int, n: int)
      requires Linked() && 0 <= t <= IDLE
      modifies this`task
      ensures Linked() && Abs() == old(Abs()).(task := old(task)[t := old(task)[t].(timeslice := n)])
    {
      task := task[t := task[t].(timeslice := n)];
      ListsTasks(next, rqHead, rqTail, waitHead, old(Abs()), Abs());
    }

    /** schedule, outside the self-loop hazard. */
    method Schedule()
      requires Linked() && Inner(Abs()) && !Hazard(Abs())
      modifies this
      ensures Linked() && Abs() == Tasks.Schedule(old(Abs())) && Inv(Abs())
    {
      hide Lists, Hazard, QueueOk, AllQueued, OnlyRuns, Remove, FirstEligible, PickQueue, Picked, AfterPick, Tasks.PickAndSwitch;
      ghost var s := Abs();
      ScheduleInv(s);
      var prev := current;
      if prev == IDLE {
        PickedRange(s, 0);
        var cand := PickFrom(0);
        if cand == NONE {
          NonePicked(s, 0);
          return;
        }
        SwitchTo(cand);
        SwitchIs(s);
        return;
      }
      if task[prev].state == Exited {
        PickAndSwitch();
        return;
      }
      if task[prev].state == Waiting {
        DequeueBase(s, prev);
        Dequeue(prev);
        PickAndSwitch();
        return;
      }
      ScheduleIncumbent(s);
    }

    /** The part of schedule for an incumbent that may go on. */
    method ScheduleIncumbent(ghost s: Sys)
      requires Linked() && s == Abs() && Inner(s) && !Hazard(s) && MayRun(s)
      modifies this
      ensures Linked() && Abs() == Tasks.Schedule(s)
    {
      hide Lists, Hazard, QueueOk, AllQueued, OnlyRuns, Remove, FirstEligible, PickQueue, Picked, AfterPick, Tasks.PickAndSwitch, SelfLoop,
           Tasks.Enqueue, Charged;
      var prev := current;
      var prevQ := ChargeIncumbent(s);
      ChargedBase(s);
      BeforeRequeue(s);
      RequeuedSettled(s);
      PickedRange(Abs(), 0);
      var cand := Peek();
      if cand != NONE && QIdx(task[cand]) < prevQ {
        SetState(prev, Ready);
        Enqueue(prev);
        PickAndSwitch();
        return;
      }
      if task[prev].timeslice <= 0 {
        SetState(prev, Ready);
        Enqueue(prev);
        SliceOver(s);
      }
    }

    /** The defensive dequeue of the incumbent, and one unit of its slice. */
    method ChargeIncumbent(ghost s: Sys) returns (prevQ: nat)
      requires Linked() && s == Abs() && Inner(s) && MayRun(s)
      modifies this
      ensures Linked() && Abs() == Charged(s) && prevQ == QIdx(s.task[s.current])
    {
      hide Lists, QueueOk, AllQueued, OnlyRuns, Remove, QIdx;
      var prev := current;
      DequeueBase(s, prev);
      Dequeue(prev);
      prevQ := QIdx(task[prev]);
      if task[prev].timeslice > 0 {
        SetSlice(prev, task[prev].timeslice - 1);
      }
    }

    /** The incumbent's slice is over and it is back on its queue. */
    method SliceOver(ghost s: Sys)
      requires Linked() && Inner(s) && !Hazard(s) && MayRun(s) && Abs() == Requeued(s)
      requires !Preempts(s) && Charged(s).task[s.current].timeslice <= 0
      modifies this
      ensures Linked() && Abs() == Tasks.Schedule(s)
    {
      hide Lists, Hazard, QueueOk, AllQueued, OnlyRuns, Remove, FirstEligible, PickQueue, Picked, AfterPick, Requeued, Charged, Preempts;
      var prev := current;
      ghost var r := Abs();
      RequeuedSettled(s);
      PickedRange(r, 0);
      PickBase(r, 0);
      var cand := PickFrom(0);
      if cand == NONE {
        cand := IDLE;
      }
      if cand == prev {
        Loop(s);
        return;
      }
      SwitchTo(cand);
      SwitchIs(r);
    }

    /** The self-loop branch. */
    method Loop(ghost s: Sys)
      requires Linked() && Inner(s) && !Hazard(s) && MayRun(s) && Abs() == AfterPick(Requeued(s), 0)
      requires !Preempts(s) && Charged(s).task[s.current].timeslice <= 0 && Picked(Requeued(s), 0) == s.current
      modifies this
      ensures Linked() && Abs() == SelfLoop(s)
    {
      hide Lists, Hazard, QueueOk, AllQueued, OnlyRuns, Remove, FirstEligible, PickQueue, Picked, AfterPick, Requeued, Charged, Preempts;
      var prev := current;
      ghost var r, s3 := Requeued(s), Abs();
      RequeuedSettled(s);
      PickBase(r, 0);
      LoopQueue(s);
      var prevQ := QIdx(task[prev]);
      PickedRange(s3, prevQ + 1);
      PickBase(s3, prevQ + 1);
      var lower := PickFrom(prevQ + 1);
      if lower != NONE {
        Enqueue(prev);
        SwitchTo(lower);
      } else {
        NonePicked(s3, prevQ + 1);
        SetSlice(prev, Slice(task[prev]));
      }
    }

    /** Replace the fields of a slot; nobody moves. */
    method Put(t: int, v: Task)
      requires Linked() && 0 <= t <= IDLE
      modifies this`task
      ensures Linked() && Abs() == old(Abs()).(task := old(task)[t := v])
    {
      task := task[t := v];
      ListsTasks(next, rqHead, rqTail, waitHead, old(Abs()), Abs());
    }

    /** task_set_tier. */
    method SetTier(t: int, tier: Tier)
      requires Linked() && Inner(Abs()) && Slot(t)
      modifies this
      ensures Linked() && Inner(Abs()) && Abs() == Tasks.SetTier(old(Abs()), t, tier)
    {
      hide Lists, QueueOk, AllQueued, OnlyRuns, Remove, Tasks.Enqueue, Tasks.Dequeue;
      ghost var s := Abs();
      SetTierInner(s, t, tier);
      var oldQ := QIdx(task[t]);
      var newQ := if tier == TIER_USER then 2 + ClampLevel(task[t].level) else TierQueue(tier);
      if oldQ != newQ && task[t].state == Ready && t != current {
        Moving(s, t, task[t].(tier := tier));
        Dequeue(t);
        Put(t, task[t].(tier := tier));
        Enqueue(t);
      } else {
        Put(t, task[t].(tier := tier));
      }
    }

    /** task_set_mlfq_level. */
    method SetLevel(t: int, level: int)
      requires Linked() && Inner(Abs()) && 0 <= t <= IDLE && (t == current || (Slot(t) && task[t].inUse))
      modifies this
      ensures Linked() && Inner(Abs()) && Abs() == Tasks.SetLevel(old(Abs()), t, level)
    {
      hide Lists, QueueOk, AllQueued, OnlyRuns, Remove, Tasks.Enqueue, Tasks.Dequeue;
      ghost var s := Abs();
      SetLevelInner(s, t, level);
      var l := ClampLevel(level);
      if task[t].level == l {
        return;
      }
      var oldQ := QIdx(task[t]);
      ghost var v := task[t].(level := l);
      Put(t, task[t].(level := l));
      var newQ := QIdx(task[t]);
      if oldQ != newQ && task[t].state == Ready && t != current {
        Moving(s, t, v);
        EnqueueTicks(s, t, v);
        MovingBase(s, t, v);
        Dequeue(t);
        Enqueue(t);
      }
    }

    /** task_mlfq_aging. */
    method Aging()
      requires Linked() && Inner(Abs())
      modifies this
      ensures Linked() && Inner(Abs()) && Abs() == Tasks.Aging(old(Abs()), 0)
    {
      hide Lists, Inner, Tasks.SetLevel;
      InnerShape(Abs());
      for i := 0 to MAX_TASKS
        invariant Linked() && Inner(Abs()) && Shape(Abs())
        invariant Tasks.Aging(Abs(), i) == Tasks.Aging(old(Abs()), 0)
      {
        if Ages(task[i]) {
          SetLevel(i, task[i].level - 1);
          InnerShape(Abs());
        }
      }
    }

    /** task_quota_period_reset. */
    method QuotaReset()
      requires Linked() && Shape(Abs())
      modifies this`task
      ensures Linked() && Abs() == Tasks.QuotaReset(old(Abs()))
    {
      for i := 0 to MAX_TASKS
        invariant Linked() && |task| == MAX_TASKS + 1
        invariant forall j :: 0 <= j <= IDLE ==> task[j] == if j < i then Tasks.QuotaReset(old(Abs())).task[j] else old(task)[j]
      {
        if task[i].inUse {
          task := task[i := task[i].(used := 0, done := false)];
          ListsTasks(next, rqHead, rqTail, waitHead, old(Abs()), Abs());
        }
      }
      assert task == Tasks.QuotaReset(old(Abs())).task;
    }

    /** yield. */
    method Yield()
      requires Linked() && Inv(Abs()) && current != IDLE && !Hazard(Yielding(Abs()))
      modifies this
      ensures Linked() && Inv(Abs()) && Abs() == Tasks.Yield(old(Abs()))
    {
      hide Lists, QueueOk, AllQueued, OnlyRuns, Hazard, Tasks.SetLevel, Tasks.Schedule;
      ghost var s := Abs();
      YieldingInner(s);
      if task[current].tier == TIER_USER {
        FieldInner(s, current, task[current].(contTicks := 0));
        Put(current, task[current].(contTicks := 0));
        if task[current].level > 0 {
          SetLevel(current, 0);
        }
      }
      SetState(current, Ready);
      Schedule();
    }

    /** The blocking half of sys_wait. */
    method WaitChild()
      requires Linked() && Inv(Abs()) && current != IDLE
      modifies this
      ensures Linked() && Inv(Abs()) && Abs() == Tasks.WaitChild(old(Abs()))
    {
      hide Lists, QueueOk, AllQueued, OnlyRuns, Hazard, Tasks.Schedule, Remove;
      ghost var s := Abs();
      WaitsInner(s);
      NoHazard(Waits(s));
      LeavingOrder(s, Waiting);
      Dequeue(current);
      SetState(current, Waiting);
      Schedule();
    }

    /** task_exit up to its call of schedule. */
    method Die()
      requires Linked() && Inv(Abs()) && current != IDLE && ParentOk(Abs())
      modifies this
      ensures Linked() && Inner(Abs()) && Abs() == Dying(old(Abs())) && task[current].state == Exited
    {
      hide Lists, QueueOk, AllQueued, OnlyRuns, Remove, Tasks.Enqueue, Tasks.Dequeue, Tasks.Orphaned;
      ghost var s := Abs();
      DyingInner(s);
      var t := current;
      LeaveInner(s, task[t].(state := Exited));
      DequeueSame(s, t);
      Dequeue(t);
      SetState(t, Exited);
      WakeUp(task[t].parent);
      Orphan(t);
    }

    /** task_exit wakes a parent that waits for a child. */
    method WakeUp(p: int)
      requires Linked() && Inner(Abs()) && p !in waitq && current != IDLE && task[current].state == Exited
      modifies this
      ensures Linked() && Inner(Abs()) && Abs() == WakeParent(old(Abs()), p)
    {
      hide Lists, QueueOk, AllQueued, OnlyRuns, Tasks.Enqueue;
      ghost var s := Abs();
      WakeParentInner(s, p);
      if Slot(p) && task[p].state == Waiting {
        var v := task[p].(state := Ready);
        if v.tier == TIER_USER {
          v := v.(contTicks := 0, level := 0);
        }
        Waking(s, p, v);
        Put(p, v);
        Enqueue(p);
      }
    }

    /** task_exit's last loop: children lose their parent, and a boost does not outlive its task. */
    method Orphan(t: int)
      requires Linked() && Shape(Abs()) && 0 <= t <= IDLE
      modifies this`task
      ensures Linked() && Abs() == Orphaned(old(Abs()), t)
    {
      for i := 0 to MAX_TASKS
        invariant Linked() && |task| == MAX_TASKS + 1
        invariant forall j :: 0 <= j <= IDLE ==> task[j] == if j < i then WithoutParent(old(task)[j], t) else old(task)[j]
      {
        if task[i].inUse && task[i].parent == t {
          task := task[i := task[i].(parent := NONE)];
          ListsTasks(next, rqHead, rqTail, waitHead, old(Abs()), Abs());
        }
      }
      task := task[t := task[t].(inherited := false, saved := TIER_USER)];
      ListsTasks(next, rqHead, rqTail, waitHead, old(Abs()), Abs());
      assert task == Orphaned(old(Abs()), t).task;
    }

    /** task_exit. */
    method Exit()
      requires Linked() && Inv(Abs()) && current != IDLE && ParentOk(Abs())
      modifies this
      ensures Linked() && Inv(Abs()) && Abs() == Tasks.Exit(old(Abs()))
    {
      hide Lists, Inner, CurrentOk, Hazard, Tasks.Schedule, Dying;
      Die();
      InnerShape(Abs());
      NoHazard(Abs());
      Schedule();
    }

    /** pit_handler. */
    method Tick()
      requires Linked() && Inv(Abs()) && Legal(Abs(), TickStep)
      modifies this
      ensures Linked() && Inv(Abs()) && Abs() == Tasks.Tick(old(Abs()))
    {
      hide Lists, Inner, CurrentOk, Hazard, Tasks.Schedule, Dying, Demote, Tasks.Aging, Tasks.QuotaReset;
      ghost var s := Abs();
      InnerShape(s);
      TickInv(s);
      var p := current;
      ticks := (ticks + 1) % TICK_WRAP;
      ListsTasks(next, rqHead, rqTail, waitHead, s, Abs());
      TicksInner(s, ticks);
      if task[p].kill {
        KillInner(Abs(), p, false);
        Put(p, task[p].(kill := false));
        Die();
        Schedule();
        return;
      }
      Charge(p);
      DemoteCurrent();
      if ticks % MLFQ_AGING_TICKS == 0 {
        Aging();
        InnerShape(Abs());
      }
      if ticks % QUOTA_PERIOD_TICKS == 0 {
        QuotaReset();
      }
      Schedule();
    }

    /** The quota accounting of pit_handler. */
    method Charge(p: int)
      requires Linked() && Inner(Abs()) && p == current
      modifies this`task
      ensures Linked() && Inner(Abs()) && Abs() == old(Abs()).(task := old(task)[p := Account(old(task)[p])])
    {
      hide Lists, QueueOk, AllQueued, OnlyRuns;
      FieldInner(Abs(), p, Account(task[p]));
      AccountSame(task, p);
      if task[p].quota > 0 {
        var limit := QUOTA_PERIOD_TICKS * task[p].quota / 100;
        if limit == 0 {
          limit := 1;
        }
        Put(p, task[p].(used := task[p].used + 1, done := task[p].done || task[p].used + 1 >= limit));
      }
    }

    /** The MLFQ demotion of pit_handler. */
    method DemoteCurrent()
      requires Linked() && Inner(Abs())
      modifies this
      ensures Linked() && Inner(Abs()) && Shape(Abs()) && Abs() == Demote(old(Abs()))
    {
      hide Lists, Inner, Tasks.SetLevel;
      ghost var s := Abs();
      InnerShape(s);
      DemoteInner(s);
      var p := current;
      if task[p].tier == TIER_USER && !task[p].done {
        FieldInner(s, p, task[p].(contTicks := task[p].contTicks + 1));
        Put(p, task[p].(contTicks := task[p].contTicks + 1));
        if task[p].contTicks >= MLFQ_DEMOTE_TICKS && task[p].level < 2 {
          SetLevel(p, task[p].level + 1);
          InnerShape(Abs());
          Put(p, task[p].(contTicks := 0));
        }
      }
    }

    // ---------------------------------------------------------------- the mutex

    /** The boost of mutex_lock. */
    method Inherit()
      requires Linked() && Inner(Abs())
      modifies this
      ensures Linked() && Inner(Abs()) && Abs() == Boost(old(Abs()))
    {
      hide Lists, QueueOk, AllQueued, OnlyRuns, Tasks.SetTier;
      ghost var s := Abs();
      BoostInner(s);
      if inherit && holder != NONE && task[holder].tier > task[current].tier {
        if !task[holder].inherited {
          FieldInner(s, holder, task[holder].(saved := task[holder].tier));
          Put(holder, task[holder].(saved := task[holder].tier));
        }
        SetTier(holder, task[current].tier);
        Put(holder, task[holder].(inherited := true));
      }
    }

    /** One pass of mutex_lock's loop: the first, or the retry of a woken waiter. */
    method LockPass()
      requires Linked() && Inv(Abs()) && current != IDLE
      modifies this
      ensures Linked() && Inv(Abs()) && Abs() == Tasks.Lock(old(Abs()))
    {
      hide Lists, QueueOk, AllQueued, OnlyRuns, Hazard, Tasks.Schedule, Boost, Tasks.Dequeue;
      ghost var s := Abs();
      LockInv(s);
      var me := current;
      if !locked {
        locked := true;
        holder := me;
        task := task[me := task[me].(inLock := false)];
        ListsTasks(next, rqHead, rqTail, waitHead, s, Abs());
        return;
      }
      BlockedInner(s);
      NoHazard(Blocked(s));
      Inherit();
      ghost var b := Abs();
      BoostInner(s);
      LeaveInner(b, b.task[me].(state := Waiting, inLock := true));
      DequeueSame(b, me);
      DequeueBase(b, me);
      Dequeue(me);
      NotWaiting(Abs(), me);
      PushWait(me);
      Schedule();
    }

    /** mutex_lock's push onto the wait queue. */
    method PushWait(me: int)
      requires Linked() && Base(Abs()) && Slot(me) && OffQueues(Abs(), me) && me !in waitq
      modifies this`task, this`next, this`waitHead, this`waitq
      ensures Linked() && Abs() == var a := old(Abs());
                a.(task := a.task[me := a.task[me].(state := Waiting, inLock := true)], mutex := a.mutex.(waitq := [me] + a.mutex.waitq))
    {
      hide QueueOk;
      ghost var s := Abs();
      task := task[me := task[me].(state := Waiting, inLock := true)];
      next := next[me := waitHead];
      waitHead := me;
      waitq := [me] + waitq;
      ListsPush(old(next), rqHead, rqTail, old(waitHead), s, next, me, Abs());
    }

    /** mutex_trylock. */
    method TryLock() returns (ok: bool)
      requires Linked() && Inv(Abs()) && current != IDLE
      modifies this`locked, this`holder
      ensures Linked() && Inv(Abs()) && Abs() == Tasks.TryLock(old(Abs())) && ok == !old(locked)
    {
      AcquiredInner(Abs());
      if locked {
        return false;
      }
      locked := true;
      holder := current;
      ListsTasks(next, rqHead, rqTail, waitHead, old(Abs()), Abs());
      ok := true;
    }

    /** mutex_unlock. */
    method Unlock()
      requires Linked() && Inv(Abs())
      modifies this
      ensures Linked() && Inv(Abs()) && Abs() == Tasks.Unlock(old(Abs()))
    {
      hide Lists, QueueOk, AllQueued, OnlyRuns, Restore, Tasks.Enqueue;
      ghost var s := Abs();
      UnlockInner(s);
      RestoreInner(s);
      Disinherit();
      ghost var r := Abs();
      locked := false;
      holder := NONE;
      ListsTasks(next, rqHead, rqTail, waitHead, r, Abs());
      Popping(r, Abs());
      WaitHead(next, rqHead, rqTail, waitHead, Abs());
      if waitHead != NONE {
        var w := waitHead;
        PopWait();
        Popped(r, Abs(), w);
        SetState(w, Ready);
        Enqueue(w);
      }
    }

    /** The restoring half of mutex_unlock. */
    method Disinherit()
      requires Linked() && Inner(Abs())
      modifies this
      ensures Linked() && Inner(Abs()) && Abs() == Restore(old(Abs()))
    {
      hide Lists, QueueOk, AllQueued, OnlyRuns, Tasks.SetTier;
      ghost var s := Abs();
      RestoreInner(s);
      if holder != NONE && task[holder].inherited {
        FieldInner(s, holder, task[holder].(inherited := false));
        Put(holder, task[holder].(inherited := false));
        SetTier(holder, task[holder].saved);
        Put(holder, task[holder].(saved := TIER_USER));
      }
    }

    /** mutex_unlock's pop from the wait queue. */
    method PopWait()
      requires Linked() && Base(Abs()) && waitq != []
      modifies this`next, this`waitHead, this`waitq
      ensures Linked() && Abs() == old(Abs()).(mutex := old(Abs()).mutex.(waitq := old(waitq)[1..]))
    {
      hide QueueOk;
      ghost var s := Abs();
      assert LinkAt(next, waitq, 0) && waitq[0] in waitq && IsWaiter(s, waitq[0]);
      var w := waitHead;
      waitHead := next[w];
      next := next[w := NONE];
      waitq := waitq[1..];
      ListsPop(old(next), rqHead, rqTail, old(waitHead), s, Abs());
    }

    // ---------------------------------------------------------------- slots

    /** create_task_slot's search: the first slot not in use. */
    method FindSlot() returns (t: int)
      requires |task| == MAX_TASKS + 1
      ensures t == NONE || (Slot(t) && !task[t].inUse && forall i :: 0 <= i < t ==> task[i].inUse)
      ensures t == NONE ==> forall i :: 0 <= i < MAX_TASKS ==> task[i].inUse
    {
      for i := 0 to MAX_TASKS
        invariant forall j :: 0 <= j < i ==> task[j].inUse
      {
        if !task[i].inUse {
          return i;
        }
      }
      t := NONE;
    }

    /** create_task or sys_fork on a free slot, and enqueue_task. */
    method Create(t: int, tier: Tier, quota: nat, parent: int)
      requires Linked() && Inv(Abs()) && Slot(t) && !task[t].inUse
      modifies this
      ensures Linked() && Inv(Abs()) && Abs() == Tasks.Create(old(Abs()), t, tier, quota, parent)
    {
      hide Lists, QueueOk, AllQueued, OnlyRuns, Tasks.Enqueue;
      ghost var s := Abs();
      CreateInner(s, t, tier, quota, parent);
      var v := Task(true, Ready, -1, tier, 0, 0, TASK_TIMESLICE, quota, 0, false, false, TIER_KERNEL, parent, false, false);
      Creating(s, t, v);
      Put(t, v);
      Enqueue(t);
    }

    /** task_init. */
    constructor (inheriting: bool)
      ensures Linked() && Inv(Abs()) && Abs() == Boot(inheriting)
    {
      var free := Task(false, Running, 0, TIER_KERNEL, 0, 0, 0, 0, 0, false, false, TIER_KERNEL, NONE, false, false);
      next := seq(MAX_TASKS + 1, i => NONE);
      rqHead := seq(NR_QUEUES, i => NONE);
      rqTail := seq(NR_QUEUES, i => NONE);
      task := seq(MAX_TASKS + 1, i => if i == IDLE then free.(state := Ready, timeslice := TASK_TIMESLICE) else free);
      current := IDLE;
      locked, holder, waitHead, inherit, ticks := false, NONE, NONE, inheriting, 0;
      q := seq(NR_QUEUES, i => []);
      waitq := [];
      new;
      assert Abs() == Boot(inheriting);
      BootInv(inheriting);
    }

    /** Any legal step, on the linked lists. */
    method Perform(step: Step)
      requires Linked() && Inv(Abs()) && Legal(Abs(), step)
      modifies this
      ensures Linked() && Inv(Abs()) && Abs() == Apply(old(Abs()), step)
    {
      hide Lists, Inner, CurrentOk, Hazard, Tasks.Schedule, Tasks.Tick, Tasks.Yield, Tasks.WaitChild, Tasks.Exit, Tasks.Lock, Tasks.TryLock,
           Tasks.Unlock, Tasks.SetTier, Tasks.Create, Yielding, BeforeTick;
      ghost var s := Abs();
      InnerShape(s);
      StepInv(s, step);
      match step {
        case TickStep => Tick();
        case IdleStep => NoHazard(s); Schedule();
        case YieldStep => Yield();
        case WaitStep => WaitChild();
        case ExitStep => Exit();
        case LockStep => LockPass();
        case TryLockStep => var ok := TryLock();
        case UnlockStep => Unlock();
        case SetTierStep(tier) => SetTier(current, tier);
        case CreateStep(slot, tier, quota, parent) => Create(slot, tier, quota, parent);
        case ReapStep(slot) =>
          Put(slot, Task(false, Running, 0, TIER_KERNEL, 0, 0, 0, 0, 0, false, false, TIER_KERNEL, NONE, false, false));
        case KillStep(slot) => Put(slot, task[slot].(kill := true));
      }
    }

    /** A whole run, on the linked lists. */
    method RunAll(steps: seq<Step>)
      requires Linked() && Inv(Abs()) && LegalRun(Abs(), steps)
      modifies this
      ensures Linked() && Inv(Abs())
      ensures old(Shape(Abs())) && Abs() == Run(old(Abs()), steps)
      decreases |steps|
    {
      hide Lists, Inner, CurrentOk, Legal, Apply;
      InnerShape(Abs());
      if steps != [] {
        Perform(steps[0]);
        RunAll(steps[1..]);
      }
    }
  }

  lemma {:induction false} Member(l: seq<int>, i: nat)
    requires i < |l|
    ensures l[i] in l
  {
  }
}
