/** What scheduling guarantees: priorities are respected, quotas are kept, and turns are taken in order. */
module SchedLaws {
  import opened Tasks
  import opened SchedInv
  import opened SchedSteps

  // ------------------------------------------------------------------ pick and peek

  /** peek_next_task: the first task with quota left on the first queue that has one. */
  ghost predicate IsPeeked(s: Sys, t: int)
    requires Shape(s)
  {
    if t == NONE then forall k, i :: 0 <= k < NR_QUEUES && 0 <= i < |s.q[k]| ==> !Eligible(s.task, s.q[k][i])
    else exists k, i :: 0 <= k < NR_QUEUES && 0 <= i < |s.q[k]| && s.q[k][i] == t && Eligible(s.task, t)
           && (forall j :: 0 <= j < i ==> !Eligible(s.task, s.q[k][j]))
           && (forall k', j :: 0 <= k' < k && 0 <= j < |s.q[k']| ==> !Eligible(s.task, s.q[k'][j]))
  }

  /** A pick returns the task that peek reports. */
  lemma {:induction false} PickIsPeek(s: Sys)
    requires Shape(s)
    ensures IsPeeked(s, Picked(s, 0))
  {
    hide FirstEligible;
    var k := PickQueue(s.task, s.q, 0);
    assert forall j :: 0 <= j < k ==> !HasEligible(s.task, s.q[j]);
    if k < NR_QUEUES {
      var i := FirstEligible(s.task, s.q[k]);
      assert s.q[k][i] == Picked(s, 0);
    }
  }

  /** A pick only rotates the queue it takes from: the members stay, one lone member leaves. */
  lemma {:induction false} PickRotates(s: Sys, from: nat)
    requires Shape(s) && from <= NR_QUEUES && PickQueue(s.task, s.q, from) < NR_QUEUES
    ensures var k, s' := PickQueue(s.task, s.q, from), AfterPick(s, from);
            && (forall j :: 0 <= j < NR_QUEUES && j != k ==> s'.q[j] == s.q[j])
            && (|s.q[k]| == 1 ==> s'.q[k] == [])
            && (|s.q[k]| > 1 ==> multiset(s'.q[k]) == multiset(s.q[k]) && s'.q[k][|s'.q[k]| - 1] == Picked(s, from))
  {
    hide FirstEligible, PickQueue, Eligible;
    var k := PickQueue(s.task, s.q, from);
    var l, i := s.q[k], FirstEligible(s.task, s.q[k]);
    assert l == l[..i] + [l[i]] + l[i + 1..];
  }

  /** n picks. */
  ghost function Picks(s: Sys, n: nat): (ts: seq<int>)
    requires Shape(s)
    ensures |ts| == n
    decreases n
  {
    if n == 0 then [] else [Picked(s, 0)] + Picks(AfterPick(s, 0), n - 1)
  }

  ghost function AfterPicks(s: Sys, n: nat): (s': Sys)
    requires Shape(s)
    ensures Shape(s')
    decreases n
  {
    if n == 0 then s else AfterPicks(AfterPick(s, 0), n - 1)
  }

  ghost predicate Front(s: Sys, k: nat)
    requires Shape(s)
  {
    && k < NR_QUEUES && |s.q[k]| >= 2 && (forall t <- s.q[k] :: Eligible(s.task, t))
    && forall j :: 0 <= j < k ==> !HasEligible(s.task, s.q[j])
  }

  lemma {:induction false} FrontPick(s: Sys, k: nat)
    requires Shape(s) && Front(s, k)
    ensures var l := s.q[k];
            && Picked(s, 0) == l[0] && AfterPick(s, 0) == s.(q := s.q[k := l[1..] + [l[0]]])
            && Front(AfterPick(s, 0), k)
  {
    var l := s.q[k];
    assert l[0] in l;
    assert PickQueue(s.task, s.q, 0) == k;
    assert l[1..] + l[..0] + [l[0]] == l[1..] + [l[0]];
    assert forall t <- l[1..] :: t in l;
  }

  lemma {:induction false} PicksInOrder(s: Sys, k: nat, n: nat)
    requires Shape(s) && Front(s, k) && n <= |s.q[k]|
    ensures Picks(s, n) == s.q[k][..n]
    ensures AfterPicks(s, n) == s.(q := s.q[k := s.q[k][n..] + s.q[k][..n]])
    decreases n
  {
    hide Front, Picked, AfterPick;
    FrontSize(s, k);
    var l := s.q[k];
    if n == 0 {
      assert l[0..] + l[..0] == l;
      assert s.q[k := l] == s.q;
    } else {
      FrontPick(s, k);
      var s1 := AfterPick(s, 0);
      PicksInOrder(s1, k, n - 1);
      var l1 := l[1..] + [l[0]];
      assert l1[..n - 1] == l[1..n] && l1[n - 1..] == l[n..] + [l[0]];
      assert [l[0]] + l[1..n] == l[..n];
      assert l[n..] + [l[0]] + l[1..n] == l[n..] + l[..n];
    }
  }

  lemma {:induction false} FrontSize(s: Sys, k: nat)
    requires Shape(s) && Front(s, k)
    ensures k < NR_QUEUES && |s.q[k]| >= 2
  {
  }

  /** Round robin: on a queue of two or more tasks with quota left, as many picks as tasks take each once, in order, and restore it. */
  lemma {:induction false} RoundRobin(s: Sys, k: nat)
    requires Shape(s) && Front(s, k)
    ensures Picks(s, |s.q[k]|) == s.q[k] && AfterPicks(s, |s.q[k]|) == s
  {
    PicksInOrder(s, k, |s.q[k]|);
    var l := s.q[k];
    assert l[..|l|] == l && l[|l|..] + l[..|l|] == l;
    assert s.q[k := l] == s.q;
  }

  // ------------------------------------------------------------------ what schedule changes

  /** Scheduling changes of a task only its place, its slice and whether it runs. */
  ghost predicate Framed(v: Task, v': Task) {
    && v' == v.(state := v'.state, timeslice := v'.timeslice, curQueue := v'.curQueue)
    && (v'.state == Exited <==> v.state == Exited) && (v'.state == Waiting <==> v.state == Waiting)
  }

  /** A fresh slice: one tick for the kernel tier, two for system and critical tasks, three down to one for a user task by level. */
  ghost predicate FreshSlice(v: Task) {
    v.timeslice == if v.tier == 0 then 1 else if v.tier != 2 then 2 else if v.level <= 0 then 3 else if v.level == 1 then 2 else 1
  }

  /** How schedule can end: the incumbent goes on, or somebody with quota left starts a fresh slice, or nobody runs. */
  ghost predicate Outcome(s: Sys, s': Sys) {
    && Shape(s) && Shape(s') && s'.mutex == s.mutex && s'.ticks == s.ticks
    && (forall t :: Slot(t) ==> Framed(s.task[t], s'.task[t]))
    && (forall t :: Slot(t) && t != s.current && t != s'.current ==> s'.task[t].timeslice == s.task[t].timeslice)
    && (s'.current == IDLE || Continues(s, s') || Starts(s, s'))
  }

  ghost predicate Continues(s: Sys, s': Sys)
    requires Shape(s) && Shape(s')
  {
    s'.current == s.current && s.task[s.current].timeslice > 1 && s'.task[s.current].timeslice == s.task[s.current].timeslice - 1
  }

  ghost predicate Starts(s: Sys, s': Sys)
    requires Shape(s) && Shape(s')
  {
    && !s.task[s'.current].done && FreshSlice(s'.task[s'.current])
    && (s'.current == s.current || s.current == IDLE || s'.task[s.current].timeslice <= s.task[s.current].timeslice)
  }

  lemma {:induction false} SliceIs(v: Task)
    ensures FreshSlice(v.(state := Running, timeslice := Slice(v)))
  {
  }

  /** Switching away from r's incumbent. */
  lemma {:induction false} SwitchOutcome(r: Sys)
    requires Settled(r)
    ensures var s' := PickAndSwitch(r);
            && s'.mutex == r.mutex && s'.ticks == r.ticks
            && (forall t :: Slot(t) ==> Framed(r.task[t], s'.task[t]))
            && (forall t :: Slot(t) && t != s'.current ==> s'.task[t] == r.task[t])
            && (s'.current == IDLE || (Slot(s'.current) && !r.task[s'.current].done && FreshSlice(s'.task[s'.current])))
  {
    hide FirstEligible, Rotated, QueueOk, AllQueued, OnlyRuns, QIdx, Slice;
    PickBase(r, 0);
    PickedRange(r, 0);
    var t := Picked(r, 0);
    if t != NONE {
      PickedReady(r, 0);
      SliceIs(r.task[t]);
    }
  }

  lemma {:induction false} PickedReady(r: Sys, from: nat)
    requires Base(r) && OnlyRuns(r, NONE) && from <= NR_QUEUES && Picked(r, from) != NONE
    ensures ReadyTask(r, Picked(r, from)) && !r.task[Picked(r, from)].done
  {
    hide FirstEligible, Rotated, AfterPick;
    PickBase(r, from);
    var t := Picked(r, from);
    var k :| from <= k < NR_QUEUES && t in r.q[k];
    QueuedIsReady(r, k, t);
  }

  /** The incumbent requeued: it lost one unit of its slice and is ready. */
  lemma {:induction false} RequeuedFrame(s: Sys)
    requires Inner(s) && MayRun(s)
    ensures var r, p := Requeued(s), s.current;
            && r.mutex == s.mutex && r.ticks == s.ticks
            && (forall t :: Slot(t) ==> Framed(s.task[t], r.task[t]))
            && (forall t :: Slot(t) && t != p ==> r.task[t] == s.task[t])
            && r.task[p].timeslice == (if s.task[p].timeslice > 0 then s.task[p].timeslice - 1 else s.task[p].timeslice)
  {
    hide Remove, QueueOk, AllQueued, OnlyRuns, QIdx;
  }

  /** m has r's tasks, where r is the state with the incumbent requeued. */
  ghost predicate AsRequeued(s: Sys, m: Sys) {
    Shape(s) && Shape(m) && m.task == Requeued(s).task && m.mutex == s.mutex && m.ticks == s.ticks && m.current == s.current
  }

  lemma {:induction false} LoopContinues(s: Sys, m: Sys)
    requires Inner(s) && MayRun(s) && AsRequeued(s, m) && !m.task[s.current].done
    ensures var p := s.current; Outcome(s, m.(task := m.task[p := m.task[p].(timeslice := Slice(m.task[p]))]))
  {
    hide Requeued, Inner;
    InnerShape(s);
    RequeuedFrame(s);
  }

  lemma {:induction false} LoopStarts(s: Sys, m: Sys, t: int)
    requires Inner(s) && MayRun(s) && AsRequeued(s, m) && Slot(t) && ReadyTask(m, t) && !m.task[t].done && ReadyTask(m, s.current)
    ensures Outcome(s, SwitchTo(Enqueue(m, s.current), t))
  {
    hide Requeued, Inner, QIdx;
    InnerShape(s);
    RequeuedFrame(s);
  }

  lemma {:induction false} LoopOutcome(s: Sys)
    requires Inner(s) && MayRun(s) && Picked(Requeued(s), 0) == s.current && !Hazard(s)
    requires !Preempts(s) && Charged(s).task[s.current].timeslice <= 0
    ensures Outcome(s, SelfLoop(s))
  {
    hide FirstEligible, Rotated, QueueOk, AllQueued, OnlyRuns, Requeued, Charged, QIdx, Slice, Hazard, Remove, Outcome, PickQueue;
    var p, r := s.current, Requeued(s);
    var below, s3 := QIdx(s.task[p]) + 1, AfterPick(r, 0);
    RequeuedSettled(s);
    RequeuedFrame(s);
    PickBase(r, 0);
    PickedReady(r, 0);
    SameTasks(r, s3, NONE, p);
    PickBase(s3, below);
    PickedRange(s3, below);
    if Picked(s3, below) != NONE {
      PickedReady(s3, below);
      LoopStarts(s, AfterPick(s3, below), Picked(s3, below));
    } else {
      LoopContinues(s, s3);
    }
  }

  /** The incumbent cannot go on. */
  lemma {:induction false} StoppedOutcome(s: Sys)
    requires Inner(s) && !MayRun(s)
    ensures Outcome(s, Schedule(s))
  {
    hide FirstEligible, Rotated, QueueOk, AllQueued, OnlyRuns, Requeued, Charged, Hazard, Remove, PickAndSwitch,
         SelfLoop, Dequeue, Preempts;
    var p := s.current;
    AbsentSettled(s);
    SwitchOutcome(s);
    WaitingSettled(s);
    if p != IDLE && s.task[p].state == Waiting {
      DequeueBase(s, p);
      DequeueSame(s, p);
      WaitingDequeued(s);
      SwitchOutcome(Dequeue(s, p));
    }
  }

  lemma {:induction false} ScheduleOutcome(s: Sys)
    requires Inner(s) && !Hazard(s)
    ensures Outcome(s, Schedule(s))
  {
    hide FirstEligible, Rotated, QueueOk, AllQueued, OnlyRuns, Requeued, Charged, Hazard, Remove, PickAndSwitch,
         SelfLoop, Dequeue, Preempts;
    var p := s.current;
    if !MayRun(s) {
      StoppedOutcome(s);
    } else {
      RequeuedSettled(s);
      RequeuedFrame(s);
      SwitchOutcome(Requeued(s));
      ChargedBase(s);
      ChargedTicks(s);
      if !Preempts(s) && Charged(s).task[p].timeslice <= 0 && Picked(Requeued(s), 0) == p { LoopOutcome(s); }
    }
  }

  lemma {:induction false} ChargedTicks(s: Sys)
    requires Shape(s)
    ensures Charged(s).ticks == s.ticks && Charged(s).current == s.current
  {
  }

  lemma {:induction false} WaitingDequeued(s: Sys)
    requires Inner(s) && s.current != IDLE && s.task[s.current].state == Waiting
    ensures Settled(Dequeue(s, s.current))
  {
    hide Remove;
    var p, d := s.current, Dequeue(s, s.current);
    AbsentSettled(s);
    DequeueBase(s, p);
    SameTasks(s, d, NONE, p);
    assert forall x :: ReadyTask(d, x) ==> x != p;
  }

  // ------------------------------------------------------------------ priority

  /** t could run but does not. */
  ghost predicate Passed(s: Sys, t: int)
    requires Shape(s)
  {
    ReadyTask(s, t) && t != s.current && !s.task[t].done
  }

  /** Nobody who could run, other than x, is strictly above the running task. */
  ghost predicate NobodyAbove(s: Sys, x: int)
    requires Shape(s)
  {
    forall t :: Passed(s, t) && t != x ==> s.current != IDLE && QIdx(s.task[s.current]) <= QIdx(s.task[t])
  }

  /** The one exception: the incumbent's slice ends with nobody else at its level or above, and a lower task gets a slice. */
  ghost predicate YieldsBelow(s: Sys)
    requires Shape(s)
  {
    var p := s.current;
    MayRun(s) && s.task[p].timeslice <= 1 && !s.task[p].done &&
    (forall j :: 0 <= j <= QIdx(s.task[p]) ==> !OthersIn(s, j, p))
    && exists j :: QIdx(s.task[p]) < j < NR_QUEUES && OthersIn(s, j, p)
  }

  /** The picked task is at least as high as anybody queued who could run. */
  lemma {:induction false} PickIsHighest(r: Sys, from: nat, t: int)
    requires Settled(r) && from <= NR_QUEUES && ReadyTask(r, t) && !r.task[t].done && QIdx(r.task[t]) >= from
    ensures Picked(r, from) != NONE && ReadyTask(r, Picked(r, from)) && QIdx(r.task[Picked(r, from)]) <= QIdx(r.task[t])
  {
    hide FirstEligible, Rotated, QueueOk;
    var k, m := QIdx(r.task[t]), PickQueue(r.task, r.q, from);
    assert t in r.q[k];
    assert HasEligible(r.task, r.q[k]);
    assert m <= k;
    PickedRange(r, from);
    var c := Picked(r, from);
    assert c in r.q[m];
    QueueIsOwn(r, NONE, m, c);
  }

  lemma {:induction false} SwitchHighest(r: Sys)
    requires Settled(r)
    ensures NobodyAbove(PickAndSwitch(r), NONE)
  {
    hide FirstEligible, Rotated, QueueOk, AllQueued, OnlyRuns;
    SwitchOutcome(r);
    var s' := PickAndSwitch(r);
    PickedRange(r, 0);
    forall t | Passed(s', t) ensures s'.current != IDLE && QIdx(s'.task[s'.current]) <= QIdx(s'.task[t]) {
      assert s'.task[t] == r.task[t];
      PickIsHighest(r, 0, t);
    }
  }

  /** schedule leaves nobody waiting above the task that runs; in its one exception, nobody but the incumbent that made way. */
  lemma {:induction false} PriorityRespected(s: Sys)
    requires Inner(s) && !Hazard(s)
    ensures NobodyAbove(Schedule(s), if YieldsBelow(s) then s.current else NONE)
  {
    hide FirstEligible, Rotated, QueueOk, AllQueued, OnlyRuns, Requeued, Charged, Hazard, Remove, PickAndSwitch, SelfLoop, Dequeue,
         Preempts, NobodyAbove, OthersIn, YieldsBelow;
    var p := s.current;
    if !MayRun(s) {
      AbsentSettled(s);
      SwitchHighest(s);
      NotYields(s);
      WaitingSettled(s);
      if p == IDLE && Picked(s, 0) == NONE { IdleHighest(s); }
      if p != IDLE && s.task[p].state == Waiting {
        WaitingDequeued(s);
        SwitchHighest(Dequeue(s, p));
      }
    } else {
      RequeuedSettled(s);
      SwitchHighest(Requeued(s));
      Weaken(PickAndSwitch(Requeued(s)), p);
      if !Preempts(s) {
        if Charged(s).task[p].timeslice > 0 {
          KeepHighest(s);
          Weaken(Charged(s), p);
        } else if Picked(Requeued(s), 0) == p {
          LoopHighest(s);
        }
      }
    }
  }

  lemma {:induction false} NotYields(s: Sys)
    requires Shape(s) && !MayRun(s)
    ensures !YieldsBelow(s)
  {
  }

  lemma {:induction false} Weaken(s: Sys, x: int)
    requires Shape(s) && NobodyAbove(s, NONE)
    ensures NobodyAbove(s, x)
  {
  }

  lemma {:induction false} IdleHighest(s: Sys)
    requires Inner(s) && s.current == IDLE && Picked(s, 0) == NONE
    ensures NobodyAbove(s, NONE)
  {
    hide FirstEligible, Rotated, QueueOk;
    AbsentSettled(s);
    forall t ensures Passed(s, t) ==> Picked(s, 0) != NONE { if Passed(s, t) { PickIsHighest(s, 0, t); } }
  }

  /** An incumbent that goes on has nobody above it. */
  lemma {:induction false} KeepHighest(s: Sys)
    requires Inner(s) && MayRun(s) && !Preempts(s)
    ensures NobodyAbove(Charged(s), NONE)
  {
    hide FirstEligible, Rotated, QueueOk, OnlyRuns, Remove, Charged, Requeued, Preempts;
    var p, c := s.current, Charged(s);
    ChargedBase(s);
    PreemptsIff(s);
    RequeuedQueues(s);
    forall t | Passed(c, t) ensures QIdx(c.task[p]) <= QIdx(c.task[t]) {
      var k := QIdx(c.task[t]);
      assert t in c.q[k];
      assert HasEligible(c.task, c.q[k]);
      assert OthersIn(s, k, p);
    }
  }

  lemma {:induction false} LoopHighest(s: Sys)
    requires Inner(s) && MayRun(s) && !Hazard(s) && Charged(s).task[s.current].timeslice <= 0 && Picked(Requeued(s), 0) == s.current
    ensures NobodyAbove(SelfLoop(s), if YieldsBelow(s) then s.current else NONE)
  {
    hide FirstEligible, Rotated, QueueOk, AllQueued, OnlyRuns, Remove, Charged, Requeued, Hazard, SelfLoop,
         AfterPick, Picked, OthersIn, QIdx;
    ChargedBase(s);
    SelfLoopIff(s);
    LowerFound(s);
    LoopOthers(s);
  }

  /** What the self-loop branch does to everybody else. */
  lemma {:induction false} LoopFrame(s: Sys)
    requires Inner(s) && MayRun(s) && Picked(Requeued(s), 0) == s.current
    ensures var p, r, s' := s.current, Requeued(s), SelfLoop(s);
            var low := Picked(AfterPick(r, 0), QIdx(s.task[p]) + 1);
            && low == Picked(r, QIdx(s.task[p]) + 1)
            && s'.current == (if low == NONE then p else low) && (low != NONE ==> Slot(low))
            && (forall t :: Slot(t) && t != p && t != low ==> s'.task[t] == r.task[t])
            && (low != NONE ==> QIdx(s'.task[low]) == QIdx(r.task[low]))
  {
    hide FirstEligible, Rotated, QueueOk, Remove, Charged, Requeued, Slice, AllQueued, OnlyRuns, HasEligible, Base, Inner, PickQueue;
    InnerShape(s);
    var p, r := s.current, Requeued(s);
    var k, s3 := QIdx(s.task[p]), AfterPick(r, 0);
    RequeuedSettled(s);
    SelfLoopQueues(s);
    PickBase(r, 0);
    PickBase(s3, k + 1);
    PickQueueAbove(r.task, r.q, s3.q, k + 1);
  }

  lemma {:induction false} LoopOthers(s: Sys)
    requires Inner(s) && MayRun(s) && Picked(Requeued(s), 0) == s.current
    ensures var p, s' := s.current, SelfLoop(s);
            var low := Picked(AfterPick(Requeued(s), 0), QIdx(s.task[p]) + 1);
            && (low == NONE ==> s'.current == p && forall t :: !Passed(s', t))
            && (low != NONE ==> s'.current == low < IDLE && forall t :: Passed(s', t) && t != p ==> QIdx(s'.task[low]) <= QIdx(s'.task[t]))
  {
    hide FirstEligible, Rotated, QueueOk, Remove, Charged, Requeued, AllQueued, OnlyRuns, QIdx, SelfLoop, AfterPick, Picked;
    var p, r, s' := s.current, Requeued(s), SelfLoop(s);
    var k, low := QIdx(s.task[p]), Picked(AfterPick(r, 0), QIdx(s.task[p]) + 1);
    RequeuedSettled(s);
    LoopFrame(s);
    forall t ensures Passed(s', t) && t != p ==> low != NONE && QIdx(s'.task[low]) <= QIdx(s'.task[t]) {
      if Passed(s', t) && t != p {
        assert ReadyTask(r, t);
        BelowIncumbent(s, t);
        PickIsHighest(r, k + 1, t);
      }
    }
  }

  /** In the self-loop branch whoever else could run is below the incumbent. */
  lemma {:induction false} BelowIncumbent(s: Sys, t: int)
    requires Inner(s) && MayRun(s) && Picked(Requeued(s), 0) == s.current
    requires ReadyTask(Requeued(s), t) && t != s.current && !Requeued(s).task[t].done
    ensures QIdx(Requeued(s).task[t]) > QIdx(s.task[s.current])
  {
    hide FirstEligible, Rotated, QueueOk, Remove, Charged, Requeued;
    var p, r := s.current, Requeued(s);
    RequeuedSettled(s);
    RequeuedQueues(s);
    SelfLoopIff(s);
    var j := QIdx(r.task[t]);
    assert t in r.q[j];
    var i :| 0 <= i < |r.q[j]| && r.q[j][i] == t;
    assert Eligible(r.task, t);
    assert Eligible(s.task, t);
    var l := Remove(s.q[j], p);
    assert t in l;
    assert HasEligible(s.task, l);
    assert OthersIn(s, j, p);
  }
}
