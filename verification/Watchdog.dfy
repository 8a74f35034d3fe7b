/** watchdog_register, watchdog_tick and watchdog_check over the table of entries. */
module Watchdog {
  import opened Bits
  import opened Restarts

  const WD_MAX := 8

  class Table {
    const entries: array<Entry>
    var count: nat
    var tick: Word
    ghost var now: nat
    ghost var histories: seq<History>

    ghost predicate Valid()
      reads this, entries
    {
      && entries.Length == WD_MAX && count <= WD_MAX && |histories| == count && tick == now % WRAP
      && (forall i :: 0 <= i < count ==> Inv(MachineAt(i)))
    }

    ghost function MachineAt(i: nat): Machine
      requires i < entries.Length && i < |histories|
      reads this, entries
    {
      Machine(entries[i], now, histories[i])
    }

    /** watchdog_init. */
    constructor ()
      ensures Valid() && count == 0 && tick == 0 && fresh(entries)
    {
      entries := new Entry[WD_MAX](_ => Entry(Nobody, 0, 0, 0, false, false, 0));
      count, tick, now, histories := 0, 0, 0, [];
    }

    /** watchdog_register, with or without an initial task. */
    method Register(given: bool) returns (r: int)
      requires Valid()
      modifies this`count, this`histories, entries
      ensures Valid() && r == if old(count) < 8 then 0 else -1
      ensures count == old(count) + if r == 0 then 1 else 0
      ensures r == 0 ==> MachineAt(old(count)) == Start(now, given)
      ensures forall i :: 0 <= i < old(count) ==> MachineAt(i) == old(MachineAt(i))
    {
      hide Inv, Start;
      if count >= WD_MAX {
        return -1;
      }
      StartInv(now, given);
      StartIs(now, given);
      entries[count] := Entry(if given then Live else Nobody, 0, 0, 0, false, true, tick);
      histories := histories + [History([], [], true)];
      count := count + 1;
      assert forall i :: 0 <= i < old(count) ==> MachineAt(i) == old(MachineAt(i));
      return 0;
    }

    /** watchdog_tick: every entry takes its tick step. */
    method Tick()
      requires Valid()
      modifies this`tick, this`now, this`histories, entries
      ensures Valid() && now == old(now) + 1
      ensures forall i :: 0 <= i < count ==> MachineAt(i) == Step(old(MachineAt(i)), TickEvent)
    {
      hide Inv, Step;
      tick := (tick + 1) % WRAP;
      now := now + 1;
      assert tick == now % WRAP;
      for i := 0 to count
        invariant |histories| == count && now == old(now) + 1 && tick == now % WRAP
        invariant forall k :: i <= k < count ==> entries[k] == old(entries[k]) && histories[k] == old(histories)[k]
        invariant forall k :: 0 <= k < i ==> MachineAt(k) == Step(old(MachineAt(k)), TickEvent)
      {
        ghost var m := old(MachineAt(i));
        StepTick(m);
        TickOne(i);
        histories := histories[i := Step(m, TickEvent).history];
        assert MachineAt(i) == Step(m, TickEvent);
        assert forall k :: 0 <= k < i ==> MachineAt(k) == Step(old(MachineAt(k)), TickEvent);
      }
      forall i | 0 <= i < count ensures Inv(MachineAt(i)) { StepInv(old(MachineAt(i)), TickEvent); }
    }

    /** The loop body of watchdog_tick. */
    method TickOne(i: nat)
      requires i < entries.Length
      modifies entries
      ensures entries[i] == TickEntry(old(entries[i]), tick)
      ensures forall k :: 0 <= k < entries.Length && k != i ==> entries[k] == old(entries[k])
    {
      var e := entries[i];
      if !e.active {
        return;
      }
      if e.task == Live {
        return;
      }
      if e.delay > 0 {
        e := e.(delay := e.delay - 1);
        if e.delay == 0 {
          e := e.(due := true);
        }
        entries[i] := e;
        return;
      }
      if e.task == Dead {
        var life := (tick - e.spawnTick + WRAP) % WRAP;
        if life < UNSTABLE_TICKS {
          e := e.(unstable := e.unstable + 1);
        } else {
          e := e.(unstable := 0);
        }
        if e.unstable >= UNSTABLE_LIMIT {
          entries[i] := e.(task := Nobody, active := false);
          return;
        }
        e := e.(restarts := e.restarts + 1);
        if e.restarts > MAX_RESTARTS {
          entries[i] := e.(task := Nobody, active := false);
          return;
        }
        e := e.(delay := Backoff(e.restarts), task := Nobody);
        entries[i] := e;
        return;
      }
      entries[i] := e.(due := true);
    }

    /** watchdog_check: every entry with a spawn due tries it; spawned says which spawns succeed. */
    method Check(spawned: seq<bool>)
      requires Valid() && |spawned| == count
      modifies this`histories, entries
      ensures Valid()
      ensures forall i :: 0 <= i < count ==> MachineAt(i) == Step(old(MachineAt(i)), CheckEvent(spawned[i]))
    {
      hide Inv, Step;
      for i := 0 to count
        invariant |histories| == count
        invariant forall k :: i <= k < count ==> entries[k] == old(entries[k]) && histories[k] == old(histories)[k]
        invariant forall k :: 0 <= k < i ==> MachineAt(k) == Step(old(MachineAt(k)), CheckEvent(spawned[k]))
      {
        ghost var m := old(MachineAt(i));
        StepCheck(m, spawned[i]);
        CheckOne(i, spawned[i]);
        histories := histories[i := Step(m, CheckEvent(spawned[i])).history];
        assert MachineAt(i) == Step(m, CheckEvent(spawned[i]));
        assert forall k :: 0 <= k < i ==> MachineAt(k) == Step(old(MachineAt(k)), CheckEvent(spawned[k]));
      }
      forall i | 0 <= i < count ensures Inv(MachineAt(i)) { StepInv(old(MachineAt(i)), CheckEvent(spawned[i])); }
    }

    /** The loop body of watchdog_check. */
    method CheckOne(i: nat, ok: bool)
      requires i < entries.Length
      modifies entries
      ensures entries[i] == CheckEntry(old(entries[i]), tick, ok)
      ensures forall k :: 0 <= k < entries.Length && k != i ==> entries[k] == old(entries[k])
    {
      var e := entries[i];
      if !e.active || !e.due {
        return;
      }
      e := e.(due := false, task := if ok then Live else Nobody);
      if e.task == Live {
        e := e.(spawnTick := tick);
      } else {
        e := e.(due := true);
      }
      entries[i] := e;
    }

    /** The managed task of an entry exits. */
    method Exit(i: nat)
      requires Valid() && i < count
      modifies entries
      ensures Valid() && MachineAt(i) == Step(old(MachineAt(i)), ExitEvent)
      ensures forall k :: 0 <= k < count && k != i ==> MachineAt(k) == old(MachineAt(k))
    {
      hide Inv;
      StepInv(MachineAt(i), ExitEvent);
      entries[i] := ExitEntry(entries[i]);
      assert forall k :: 0 <= k < count && k != i ==> MachineAt(k) == old(MachineAt(k));
    }
  }

  lemma {:induction false} StartIs(now: nat, given: bool)
    ensures Start(now, given) == Machine(Entry(if given then Live else Nobody, 0, 0, 0, false, true, now % WRAP),
            now, History([], [], true))
  {
  }

  lemma {:induction false} StepTick(m: Machine)
    ensures Step(m, TickEvent).entry == TickEntry(m.entry, (m.now + 1) % WRAP) && Step(m, TickEvent).now == m.now + 1
  {
  }

  lemma {:induction false} StepCheck(m: Machine, ok: bool)
    ensures Step(m, CheckEvent(ok)).entry == CheckEntry(m.entry, m.now % WRAP, ok) && Step(m, CheckEvent(ok)).now == m.now
  {
  }
}
