/** Singly linked lists threaded through the task slots' `next` fields. */
module Links {
  import opened Basics
  import opened Tasks
  import opened SchedInv

  ghost predicate LinkAt(next: seq<int>, l: seq<int>, i: nat)
    requires i < |l|
  {
    0 <= l[i] < |next| && next[l[i]] == if i + 1 < |l| then l[i + 1] else NONE
  }

  ghost predicate Linked(next: seq<int>, l: seq<int>) {
    forall i :: 0 <= i < |l| ==> LinkAt(next, l, i)
  }

  ghost function HeadOf(l: seq<int>): int {
    if l == [] then NONE else l[0]
  }

  ghost function TailOf(l: seq<int>): int {
    if l == [] then NONE else l[|l| - 1]
  }

  ghost predicate IsList(next: seq<int>, head: int, tail: int, l: seq<int>) {
    head == HeadOf(l) && tail == TailOf(l) && Linked(next, l)
  }

  /** Links of slots outside the list do not matter. */
  lemma {:induction false} LinkedFrame(next: seq<int>, next': seq<int>, l: seq<int>)
    requires Linked(next, l) && |next'| == |next| && forall t <- l :: 0 <= t < |next| ==> next'[t] == next[t]
    ensures Linked(next', l)
  {
    forall i | 0 <= i < |l| ensures LinkAt(next', l, i) { assert LinkAt(next, l, i) && l[i] in l; }
  }

  lemma {:induction false} LinkedAppend(next: seq<int>, l: seq<int>, t: int)
    requires Linked(next, l) && Distinct(l) && t !in l && 0 <= t < |next|
    ensures l == [] ==> Linked(next[t := NONE], [t])
    ensures l != [] ==> 0 <= l[|l| - 1] < |next| && Linked(next[t := NONE][l[|l| - 1] := t], l + [t])
  {
    if l != [] {
      assert LinkAt(next, l, |l| - 1);
      var next', l' := next[t := NONE][l[|l| - 1] := t], l + [t];
      forall i | 0 <= i < |l'| ensures LinkAt(next', l', i) {
        if i < |l| { assert LinkAt(next, l, i) && l[i] in l; }
      }
    }
  }

  /** Unlinking position i. */
  lemma {:induction false} LinkedRemove(next: seq<int>, l: seq<int>, i: nat)
    requires Linked(next, l) && Distinct(l) && i < |l| && LinkAt(next, l, i)
    ensures i == 0 ==> Linked(next[l[0] := NONE], l[1..]) && next[l[0]] == HeadOf(l[1..])
    ensures i > 0 ==> LinkAt(next, l, i - 1) && Linked(next[l[i - 1] := next[l[i]]][l[i] := NONE], l[..i] + l[i + 1..])
    ensures i > 0 ==> TailOf(l[..i] + l[i + 1..]) == if i == |l| - 1 then l[i - 1] else TailOf(l)
  {
    if i == 0 {
      var next', l' := next[l[0] := NONE], l[1..];
      forall j | 0 <= j < |l'| ensures LinkAt(next', l', j) { assert LinkAt(next, l, j + 1); }
    } else {
      assert LinkAt(next, l, i - 1);
      var next', l' := next[l[i - 1] := next[l[i]]][l[i] := NONE], l[..i] + l[i + 1..];
      forall j | 0 <= j < |l'| ensures LinkAt(next', l', j) {
        var k := if j < i then j else j + 1;
        assert l'[j] == l[k] && LinkAt(next, l, k);
      }
    }
  }

  /** Moving the front to the back. */
  lemma {:induction false} LinkedRotate(next: seq<int>, l: seq<int>)
    requires Linked(next, l) && Distinct(l) && |l| >= 2 && LinkAt(next, l, 0) && LinkAt(next, l, |l| - 1)
    ensures Linked(next[l[|l| - 1] := l[0]][l[0] := NONE], l[1..] + [l[0]]) && next[l[0]] == l[1]
  {
    var next', l' := next[l[|l| - 1] := l[0]][l[0] := NONE], l[1..] + [l[0]];
    forall j | 0 <= j < |l'| ensures LinkAt(next', l', j) {
      if j < |l| - 1 { assert l'[j] == l[j + 1] && LinkAt(next, l, j + 1); }
    }
  }

  lemma {:induction false} RemoveAt(l: seq<int>, i: nat)
    requires Distinct(l) && i < |l|
    ensures Remove(l, l[i]) == l[..i] + l[i + 1..]
  {
    if i > 0 {
      RemoveAt(l[1..], i - 1);
      assert l[1..][..i - 1] == l[1..i] && l[1..][i..] == l[i + 1..];
      assert [l[0]] + l[1..i] == l[..i];
    }
  }

  // ------------------------------------------------------------------ all the lists of a system

  /** The heads, tails and links are those of the run queues and of the wait queue. */
  ghost predicate Lists(next: seq<int>, head: seq<int>, tail: seq<int>, waitHead: int, s: Sys) {
    && Shape(s) && |next| == MAX_TASKS + 1 && |head| == |tail| == NR_QUEUES
    && (forall k :: 0 <= k < NR_QUEUES ==> IsList(next, head[k], tail[k], s.q[k]))
    && waitHead == HeadOf(s.mutex.waitq) && Linked(next, s.mutex.waitq)
  }

  /** No slot is on two lists. */
  lemma {:induction false} Apart(s: Sys, k: nat)
    requires Base(s) && k < NR_QUEUES
    ensures Distinct(s.q[k]) && forall t <- s.q[k] :: Slot(t) && t !in s.mutex.waitq
    ensures forall t, j :: t in s.q[k] && 0 <= j < NR_QUEUES && j != k ==> t !in s.q[j]
  {
    assert QueueOk(s, k);
    forall t <- s.q[k] ensures Slot(t) && t !in s.mutex.waitq && forall j :: 0 <= j < NR_QUEUES && j != k ==> t !in s.q[j] {
      assert OnIt(s, k, t);
      assert t in s.mutex.waitq ==> IsWaiter(s, t);
      OnlyOwnQueue(s, t);
    }
  }

  /** Relinking queue k, and whatever is on no other list, leaves the other lists as they are. */
  lemma {:induction false} ListsUpdate(next: seq<int>, head: seq<int>, tail: seq<int>, waitHead: int, s: Sys,
                                       next': seq<int>, h: int, t: int, k: nat, l: seq<int>, s': Sys)
    requires Lists(next, head, tail, waitHead, s) && k < NR_QUEUES && Shape(s')
    requires s'.q == s.q[k := l] && s'.mutex == s.mutex && IsList(next', h, t, l) && |next'| == |next|
    requires forall x, j :: 0 <= j < NR_QUEUES && j != k && x in s.q[j] && 0 <= x < |next| ==> next'[x] == next[x]
    requires forall x <- s.mutex.waitq :: 0 <= x < |next| ==> next'[x] == next[x]
    ensures Lists(next', head[k := h], tail[k := t], waitHead, s')
  {
    forall j | 0 <= j < NR_QUEUES ensures IsList(next', head[k := h][j], tail[k := t][j], s'.q[j]) {
      if j != k {
        assert IsList(next, head[j], tail[j], s.q[j]);
        LinkedFrame(next, next', s.q[j]);
      }
    }
    LinkedFrame(next, next', s.mutex.waitq);
  }

  // ------------------------------------------------------------------ enqueueing a task that is still linked

  /** The links after enqueue_task(t) on a queue with this tail. */
  function EnqueueLinks(next: seq<int>, tail: int, t: int): (next': seq<int>)
    requires 0 <= t < |next| && NONE <= tail < |next|
  {
    if tail != NONE then next[t := NONE][tail := t] else next[t := NONE]
  }

  /** enqueue_task of a ready task that is on no list: its queue gets it at the tail, the other lists are as they were. */
  lemma {:induction false} EnqueuedLists(next: seq<int>, head: seq<int>, tail: seq<int>, waitHead: int, s: Sys, t: int)
    requires Lists(next, head, tail, waitHead, s) && Base(s) && ReadyTask(s, t) && OffQueues(s, t)
    ensures var k := QIdx(s.task[t]);
            && Shape(s) && |next| == MAX_TASKS + 1 && |head| == |tail| == NR_QUEUES && Slot(t) && NONE <= tail[k] <= IDLE
            && Lists(EnqueueLinks(next, tail[k], t), if tail[k] == NONE then head[k := t] else head, tail[k := t], waitHead, Enqueue(s, t))
  {
    hide QIdx, QueueOk, IsWaiter, Linked;
    var k := QIdx(s.task[t]);
    var l := s.q[k];
    Apart(s, k);
    assert IsList(next, head[k], tail[k], l);
    ReadyNotWaiting(s, t);
    LinkedAppend(next, l, t);
    assert l != [] ==> TailOf(l) in l;
    var next' := EnqueueLinks(next, tail[k], t);
    assert l == [] ==> l + [t] == [t];
    ListsUpdate(next, head, tail, waitHead, s, next', HeadOf(l + [t]), t, k, l + [t], Enqueue(s, t));
    assert l != [] ==> head[k := l[0]] == head;
  }

  /** A ready task is not in the wait queue. */
  lemma {:induction false} ReadyNotWaiting(s: Sys, t: int)
    requires Base(s) && ReadyTask(s, t)
    ensures t !in s.mutex.waitq
  {
    assert t in s.mutex.waitq ==> IsWaiter(s, t);
  }

  /** Unlinking the head of one list. */
  lemma {:induction false} Unheaded(next: seq<int>, head: int, tail: int, l: seq<int>)
    requires IsList(next, head, tail, l) && l != [] && Distinct(l) && |next| == MAX_TASKS + 1 && forall t <- l :: Slot(t)
    ensures Slot(head) && Remove(l, head) == l[1..]
    ensures IsList(next[head := NONE], next[head], if next[head] == NONE then NONE else tail, l[1..])
  {
    hide Linked, Remove, Distinct;
    FirstLink(next, l);
    LinkedRemove(next, l, 0);
    RemoveAt(l, 0);
    assert l[..0] + l[1..] == l[1..];
    assert |l| > 1 ==> l[1] in l;
  }

  /** Unlinking the head of queue k. */
  lemma {:induction false} UnheadedLists(next: seq<int>, head: seq<int>, tail: seq<int>, waitHead: int, s: Sys, k: nat)
    requires Lists(next, head, tail, waitHead, s) && Base(s) && k < NR_QUEUES && s.q[k] != []
    ensures Shape(s) && |next| == MAX_TASKS + 1 && |head| == |tail| == NR_QUEUES && Slot(head[k])
    ensures var t, l := head[k], s.q[k];
            && Remove(l, t) == l[1..]
            && Lists(next[t := NONE], head[k := next[t]], if next[t] == NONE then tail[k := NONE] else tail,
               waitHead, s.(q := s.q[k := l[1..]]))
  {
    hide QueueOk, IsWaiter, Linked, Remove, HeadOf, TailOf;
    var l, t := s.q[k], head[k];
    Apart(s, k);
    assert IsList(next, t, tail[k], l);
    Unheaded(next, t, tail[k], l);
    assert t in l by { ListHead(next, t, tail[k], l); }
    ListsUpdate(next, head, tail, waitHead, s, next[t := NONE], next[t], if next[t] == NONE then NONE else tail[k],
        k, l[1..], s.(q := s.q[k := l[1..]]));
    assert tail[k := tail[k]] == tail;
  }

  lemma {:induction false} ListHead(next: seq<int>, head: int, tail: int, l: seq<int>)
    requires IsList(next, head, tail, l) && l != []
    ensures head in l
  {
  }

  /** Unlinking what follows position i of one list. */
  lemma {:induction false} UnlinkedOne(next: seq<int>, head: int, tail: int, l: seq<int>, i: nat)
    requires IsList(next, head, tail, l) && Distinct(l) && |next| == MAX_TASKS + 1 && (forall t <- l :: Slot(t)) && i < |l|
    requires 0 <= l[i] < |next| && next[l[i]] != NONE
    ensures i + 1 < |l| && next[l[i]] == l[i + 1] && Slot(l[i]) && Slot(l[i + 1])
    ensures Remove(l, l[i + 1]) == l[..i + 1] + l[i + 2..]
    ensures IsList(next[l[i] := next[l[i + 1]]][l[i + 1] := NONE], head, if tail == l[i + 1] then l[i] else tail, l[..i + 1] + l[i + 2..])
  {
    hide Linked, Remove;
    LinkHere(next, l, i);
    LinkHere(next, l, i + 1);
    LinkedRemove(next, l, i + 1);
    RemoveAt(l, i + 1);
    assert l[i] in l && l[i + 1] in l;
  }

  lemma {:induction false} LinkHere(next: seq<int>, l: seq<int>, i: nat)
    requires Linked(next, l)
    ensures i < |l| ==> LinkAt(next, l, i)
  {
  }

  /** Unlinking what follows position i of queue k. */
  lemma {:induction false} UnlinkedLists(next: seq<int>, head: seq<int>, tail: seq<int>, waitHead: int, s: Sys, k: nat, i: nat)
    requires Lists(next, head, tail, waitHead, s) && Base(s) && k < NR_QUEUES && i < |s.q[k]|
    requires 0 <= s.q[k][i] < |next| && next[s.q[k][i]] != NONE
    ensures Shape(s) && |next| == MAX_TASKS + 1 && |head| == |tail| == NR_QUEUES
    ensures var l, p := s.q[k], s.q[k][i];
            var t := next[p];
            && Slot(p) && Slot(t)
            && Lists(next[p := next[t]][t := NONE], head, if tail[k] == t then tail[k := p] else tail, waitHead,
               s.(q := s.q[k := Remove(l, t)]))
  {
    hide QueueOk, IsWaiter, Linked, Remove, HeadOf, TailOf, Distinct;
    var l, p := s.q[k], s.q[k][i];
    Apart(s, k);
    assert IsList(next, head[k], tail[k], l);
    UnlinkedOne(next, head[k], tail[k], l, i);
    var t := next[p];
    assert p in l && l[i + 1] in l;
    ListsUpdate(next, head, tail, waitHead, s, next[p := next[t]][t := NONE], head[k],
        if tail[k] == t then p else tail[k], k, Remove(l, t), s.(q := s.q[k := Remove(l, t)]));
    assert head[k := head[k]] == head && tail[k := tail[k]] == tail;
  }

  lemma {:induction false} FirstLink(next: seq<int>, l: seq<int>)
    requires Linked(next, l) && l != []
    ensures l[0] in l && LinkAt(next, l, 0)
  {
  }

  /** Enqueueing the task that already is the tail links it to itself: the queue is no list any more. */
  lemma {:induction false} EnqueueTailCycles(next: seq<int>, head: int, l: seq<int>, t: int)
    requires IsList(next, head, t, l) && 0 <= t < |next|
    ensures EnqueueLinks(next, t, t)[t] == t
    ensures forall h, l' :: !IsList(EnqueueLinks(next, t, t), h, t, l')
  {
    var next' := EnqueueLinks(next, t, t);
    forall h, l' ensures !IsList(next', h, t, l') {
      assert IsList(next', h, t, l') ==> l' != [] && LinkAt(next', l', |l'| - 1);
    }
  }

  /** Enqueueing a task that is still in the wait queue cuts that queue off after it: no waiter links to those behind it. */
  lemma {:induction false} EnqueueCutsWaiters(next: seq<int>, w: seq<int>, i: nat, tail: int)
    requires Linked(next, w) && Distinct(w) && i < |w| && NONE <= tail < |next| && tail !in w && NONE !in w
    ensures LinkAt(next, w, i)
    ensures var next' := EnqueueLinks(next, tail, w[i]);
            && Linked(next', w[..i + 1])
            && (i + 1 < |w| ==> !Linked(next', w) && forall t <- w :: 0 <= t < |next| && next'[t] != w[i + 1])
  {
    LinkHere(next, w, i);
    var next', front := EnqueueLinks(next, tail, w[i]), w[..i + 1];
    forall j | 0 <= j < |front| ensures LinkAt(next', front, j) { assert LinkAt(next, w, j) && w[j] in w; }
    if i + 1 < |w| {
      assert !LinkAt(next', w, i);
      forall t <- w ensures 0 <= t < |next| && next'[t] != w[i + 1] {
        var j :| 0 <= j < |w| && w[j] == t;
        assert LinkAt(next, w, j) && w[i + 1] in w;
      }
    }
  }

  /** In the hazard, schedule's re-enqueue ties the incumbent's queue into a cycle. */
  lemma {:induction false} HazardBreaksQueue(next: seq<int>, head: seq<int>, tail: seq<int>, waitHead: int, s: Sys)
    requires Inner(s) && Hazard(s)
    requires Lists(next, head, tail, waitHead, AfterPick(AfterPick(Requeued(s), 0), QIdx(s.task[s.current]) + 1))
    ensures var p, k := s.current, QIdx(s.task[s.current]);
            && tail[k] == p && EnqueueLinks(next, p, p)[p] == p
            && forall h, l :: !IsList(EnqueueLinks(next, p, p), h, p, l)
  {
    hide Remove, FirstEligible, Requeued, Charged, QueueOk, AllQueued, OnlyRuns, OthersIn, Rotated, HasEligible;
    var p, k := s.current, QIdx(s.task[s.current]);
    HazardIff(s);
    RequeuedQueues(s);
    SelfLoopQueues(s);
    var s3 := AfterPick(Requeued(s), 0);
    var s4 := AfterPick(s3, k + 1);
    assert s4.q[k] == s3.q[k] == Remove(s.q[k], p) + [p];
    assert IsList(next, head[k], tail[k], s4.q[k]);
    EnqueueTailCycles(next, head[k], s4.q[k], p);
  }
}
