/** One watchdog entry as a machine: deaths are noticed, respawns wait out a doubling back-off, and some entries give up. */
module Restarts {
  import opened Bits

  const MAX_RESTARTS := 5
  const UNSTABLE_LIMIT := 3
  const BACKOFF_BASE := 5
  const UNSTABLE_TICKS := 10

  /** The managed task: none, running, or exited and not yet noticed. */
  datatype Managed = Nobody | Live | Dead

  /** struct wd_entry, without the path and the tier. */
  datatype Entry = Entry(task: Managed, restarts: nat, unstable: nat, delay: nat, due: bool, active: bool, spawnTick: Word)

  /** WD_BACKOFF_BASE << (restarts - 1). */
  function Backoff(restarts: nat): nat
    requires restarts >= 1
  {
    BACKOFF_BASE * Pow2(restarts - 1)
  }

  /** A new entry, with or without an initial task. */
  function Registered(tick: Word, given: bool): Entry {
    Entry(if given then Live else Nobody, 0, 0, 0, false, true, tick)
  }

  function Life(tick: Word, spawnTick: Word): nat { (tick - spawnTick + WRAP) % WRAP }

  /** A death is noticed: give up, or schedule a respawn. */
  function Notice(e: Entry, tick: Word): Entry {
    var unstable := if Life(tick, e.spawnTick) < UNSTABLE_TICKS then e.unstable + 1 else 0;
    if unstable >= UNSTABLE_LIMIT then e.(unstable := unstable, task := Nobody, active := false)
    else if e.restarts + 1 > MAX_RESTARTS then e.(unstable := unstable, restarts := e.restarts + 1, task := Nobody, active := false)
    else e.(unstable := unstable, restarts := e.restarts + 1, delay := Backoff(e.restarts + 1), task := Nobody)
  }

  /** One entry's part of watchdog_tick; tick is the new count. */
  function TickEntry(e: Entry, tick: Word): Entry {
    if !e.active || e.task == Live then e
    else if e.delay > 0 then e.(delay := e.delay - 1, due := e.due || e.delay == 1)
    else if e.task == Dead then Notice(e, tick)
    else e.(due := true)
  }

  /** One entry's part of watchdog_check; ok says whether the spawn succeeded. */
  function CheckEntry(e: Entry, tick: Word, ok: bool): Entry {
    if !e.active || !e.due then e
    else if ok then e.(due := false, task := Live, spawnTick := tick)
    else e.(task := Nobody)
  }

  function ExitEntry(e: Entry): Entry {
    if e.task == Live then e.(task := Dead) else e
  }

  // ------------------------------------------------------------------ history

  /** The ticks at which respawns were scheduled and made, and whether every life so far was short. */
  datatype History = History(noticed: seq<nat>, spawned: seq<nat>, short: bool)

  datatype Event = TickEvent | CheckEvent(ok: bool) | ExitEvent

  /** The machine with its clock and its history. */
  datatype Machine = Machine(entry: Entry, now: nat, history: History)

  function Start(now: nat, given: bool): Machine {
    Machine(Registered(now % WRAP, given), now, History([], [], true))
  }

  /** A tick schedules a respawn. */
  predicate Schedules(e: Entry, tick: Word) {
    e.active && e.task == Dead && e.delay == 0 && Notice(e, tick).active
  }

  /** A check respawns; the start of an entry registered without a task is not a respawn. */
  predicate Respawns(e: Entry, ok: bool) { e.active && e.due && ok && e.restarts >= 1 }

  function Step(m: Machine, ev: Event): Machine {
    match ev
    case TickEvent =>
      var now, tick := m.now + 1, (m.now + 1) % WRAP;
      var h := if Schedules(m.entry, tick) then
                 m.history.(noticed := m.history.noticed + [now],
                            short := m.history.short && Life(tick, m.entry.spawnTick) < UNSTABLE_TICKS)
               else m.history;
      Machine(TickEntry(m.entry, tick), now, h)
    case CheckEvent(ok) =>
      var h := if Respawns(m.entry, ok) then m.history.(spawned := m.history.spawned + [m.now]) else m.history;
      Machine(CheckEntry(m.entry, m.now % WRAP, ok), m.now, h)
    case ExitEvent => m.(entry := ExitEntry(m.entry))
  }

  function Run(m: Machine, evs: seq<Event>): Machine
    decreases |evs|
  {
    if evs == [] then m else Run(Step(m, evs[0]), evs[1..])
  }

  // ------------------------------------------------------------------ what every run keeps

  /** The r-th respawn came at least 5 * 2^(r-1) ticks after the r-th one was scheduled. */
  ghost predicate Spaced(h: History) {
    |h.spawned| <= |h.noticed| && forall r :: 0 <= r < |h.spawned| ==> h.spawned[r] >= h.noticed[r] + Backoff(r + 1)
  }

  ghost predicate Inv(m: Machine) {
    var e, h := m.entry, m.history;
    && Spaced(h) && |h.spawned| <= MAX_RESTARTS
    && (e.due && e.active ==> e.task == Nobody && e.delay == 0)
    && (!e.active ==> e.task == Nobody)
    && (e.active ==>
          && e.restarts == |h.noticed| <= MAX_RESTARTS && e.unstable < UNSTABLE_LIMIT
          && (h.short ==> e.unstable == e.restarts)
          && (e.task != Nobody ==> |h.spawned| == e.restarts && e.delay == 0 && !e.due)
          && (e.task == Nobody && e.restarts == 0 ==> |h.spawned| == 0 && e.delay == 0)
          && (e.task == Nobody && e.restarts >= 1 ==> |h.spawned| == e.restarts - 1 && Waited(e, m.now, h.noticed[e.restarts - 1])))
    && (h.short ==> |h.spawned| < UNSTABLE_LIMIT)
  }

  /** A waiting entry: the delay left, and the ticks since the death, make up the back-off. */
  ghost predicate Waited(e: Entry, now: nat, noticed: nat)
    requires e.restarts >= 1
  {
    if e.delay > 0 then !e.due && now - noticed + e.delay == Backoff(e.restarts) else e.due && now - noticed >= Backoff(e.restarts)
  }

  lemma {:induction false} StartInv(now: nat, given: bool)
    ensures Inv(Start(now, given))
  {
  }

  lemma {:induction false} TickInv(m: Machine)
    requires Inv(m)
    ensures Inv(Step(m, TickEvent))
  {
    hide Backoff, Life;
    var e, h, m' := m.entry, m.history, Step(m, TickEvent);
    if Schedules(e, (m.now + 1) % WRAP) {
      BackoffPositive(e.restarts + 1);
      assert forall r :: 0 <= r < |h.noticed| ==> m'.history.noticed[r] == h.noticed[r];
    }
  }

  lemma {:induction false} BackoffPositive(r: nat)
    requires r >= 1
    ensures Backoff(r) >= BACKOFF_BASE
  {
  }

  lemma {:induction false} CheckInv(m: Machine, ok: bool)
    requires Inv(m)
    ensures Inv(Step(m, CheckEvent(ok)))
  {
    hide Backoff;
  }

  lemma {:induction false} StepInv(m: Machine, ev: Event)
    requires Inv(m)
    ensures Inv(Step(m, ev))
  {
    hide Backoff;
    match ev {
      case TickEvent => TickInv(m);
      case CheckEvent(ok) => CheckInv(m, ok);
      case ExitEvent =>
    }
  }

  lemma {:induction false} RunInv(m: Machine, evs: seq<Event>)
    requires Inv(m)
    ensures Inv(Run(m, evs))
    decreases |evs|
  {
    hide Inv, Step;
    if evs != [] {
      StepInv(m, evs[0]);
      RunInv(Step(m, evs[0]), evs[1..]);
    }
  }

  /**
   In every run an entry is respawned at most five times, at most twice if no life lasted ten ticks; each
   respawn waits out its back-off; and a pending spawn means no managed task exists.
   */
  lemma {:induction false} RunBounded(now: nat, given: bool, evs: seq<Event>)
    ensures var m := Run(Start(now, given), evs);
            && |m.history.spawned| <= MAX_RESTARTS && (m.history.short ==> |m.history.spawned| < UNSTABLE_LIMIT)
            && Spaced(m.history)
            && (m.entry.active && m.entry.due ==> m.entry.task == Nobody)
  {
    StartInv(now, given);
    RunInv(Start(now, given), evs);
  }

  /** An entry that gave up stays that way and never spawns again. */
  lemma {:induction false} GaveUpForever(m: Machine, evs: seq<Event>)
    requires Inv(m) && !m.entry.active
    ensures Run(m, evs).entry == m.entry && Run(m, evs).history == m.history
    decreases |evs|
  {
    if evs != [] {
      StepInv(m, evs[0]);
      GaveUpForever(Step(m, evs[0]), evs[1..]);
    }
  }

  // ------------------------------------------------------------------ that it does respawn

  /** The delays before the first to the fifth respawn. */
  const DELAYS: seq<nat> := [5, 10, 20, 40, 80]

  /**
   An unnoticed death is given up on exactly when five have been scheduled before, or when the life was
   shorter than ten ticks and so were the two before it. Otherwise the task is to come back after its delay.
   */
  lemma {:induction false} GivesUpIff(m: Machine)
    requires Inv(m) && m.entry.active && m.entry.task == Dead
    ensures var e, r, short := m.entry, |m.history.noticed|, (m.now + 1 - m.entry.spawnTick) % WRAP < 10;
            var m' := Step(m, TickEvent);
            && m'.now == m.now + 1 && (m'.entry.active <==> r < 5 && !(short && e.unstable == 2))
            && (m'.entry.active ==>
                  && m'.entry == Entry(Nobody, r + 1, if short then e.unstable + 1 else 0, DELAYS[r], false, true, e.spawnTick)
                  && m'.history.noticed == m.history.noticed + [m.now + 1] && m'.history.spawned == m.history.spawned)
  {
    hide Spaced, Backoff;
    LifeIs(m.now + 1, m.entry.spawnTick);
    if |m.history.noticed| < 5 { DelayIs(|m.history.noticed| + 1); }
  }

  lemma {:induction false} LifeIs(now: nat, spawnTick: Word)
    ensures Life(now % WRAP, spawnTick) == (now - spawnTick) % WRAP
  {
  }

  lemma {:induction false} DelayIs(r: nat)
    requires 1 <= r <= 5
    ensures Backoff(r) == DELAYS[r - 1]
  {
    assert Pow2(0) == 1 && Pow2(1) == 2 && Pow2(2) == 4;
    assert Pow2(3) == 8;
    assert Pow2(4) == 16;
  }

  function Ticks(n: nat): seq<Event> {
    seq(n, i => TickEvent)
  }

  lemma {:induction false} RunConcat(m: Machine, xs: seq<Event>, ys: seq<Event>)
    ensures Run(m, xs + ys) == Run(Run(m, xs), ys)
    decreases |xs|
  {
    hide Step;
    if xs == [] {
      assert xs + ys == ys;
    } else {
      RunConcat(Step(m, xs[0]), xs[1..], ys);
      assert (xs + ys)[1..] == xs[1..] + ys;
    }
  }

  lemma {:induction false} OneMoreTick(m: Machine, n: nat)
    ensures Run(m, Ticks(n + 1)) == Run(Step(m, TickEvent), Ticks(n))
  {
    hide Step;
    assert Ticks(n + 1)[1..] == Ticks(n);
  }

  /** While the delay runs it counts down, and only its last tick makes the spawn due. */
  lemma {:induction false} CountsDown(m: Machine, n: nat)
    requires m.entry.active && m.entry.task == Nobody && !m.entry.due && n <= m.entry.delay && m.entry.delay > 0
    ensures Run(m, Ticks(n)) == Machine(m.entry.(delay := m.entry.delay - n, due := n == m.entry.delay), m.now + n, m.history)
    decreases n
  {
    if n > 0 {
      OneMoreTick(m, n - 1);
      var m1 := Step(m, TickEvent);
      if n > 1 { CountsDown(m1, n - 1); }
    }
  }

  /** A live task's entry does not change. */
  lemma {:induction false} WhileAlive(m: Machine, n: nat)
    requires m.entry.task == Live
    ensures Run(m, Ticks(n)) == m.(now := m.now + n)
    decreases n
  {
    if n > 0 {
      OneMoreTick(m, n - 1);
      WhileAlive(Step(m, TickEvent), n - 1);
    }
  }

  /** A spawn that is due is made by the first check that can, and stays due until then. */
  lemma {:induction false} CheckSpawns(m: Machine)
    requires Inv(m) && m.entry.active && m.entry.due
    ensures Step(m, CheckEvent(false)) == m
    ensures var m' := Step(m, CheckEvent(true));
            && m'.entry == m.entry.(task := Live, due := false, spawnTick := m.now % WRAP) && m'.now == m.now
            && m'.history.noticed == m.history.noticed
            && m'.history.spawned == m.history.spawned + if m.entry.restarts >= 1 then [m.now] else []
  {
    hide Spaced, Backoff;
  }

  /** An entry registered without a task gets one at the first tick and check. */
  lemma {:induction false} FirstSpawn(now: nat)
    ensures Run(Start(now, false), [TickEvent, CheckEvent(true)]).entry == Entry(Live, 0, 0, 0, false, true, (now + 1) % WRAP)
  {
    var m := Start(now, false);
    var m1 := Step(m, TickEvent);
    assert [TickEvent, CheckEvent(true)][1..] == [CheckEvent(true)] && [CheckEvent(true)][1..] == [];
    assert Run(m1, [CheckEvent(true)]) == Step(m1, CheckEvent(true));
  }

  /** A death that is not given up on: its delay in ticks and one check that can spawn bring the task back, and nothing sooner. */
  lemma {:induction false} ComesBack(m: Machine, n: nat)
    requires Inv(m) && m.entry.active && m.entry.task == Dead && Step(m, TickEvent).entry.active
    ensures var r, m1 := |m.history.noticed|, Step(m, TickEvent);
            && r < 5
            && (n < DELAYS[r] ==> !Run(m1, Ticks(n)).entry.due)
            && var m2 := Run(m1, Ticks(DELAYS[r]) + [CheckEvent(true)]);
               && Inv(m2) && m2.entry.active && m2.entry.task == Live && m2.entry.restarts == r + 1
               && m2.entry.unstable == m1.entry.unstable
               && m2.now == m.now + 1 + DELAYS[r] && m2.entry.spawnTick == m2.now % WRAP
               && m2.history.spawned == m.history.spawned + [m2.now] && |m2.history.noticed| == r + 1
  {
    hide Step, Inv, Run;
    GivesUpIff(m);
    var r, m1 := |m.history.noticed|, Step(m, TickEvent);
    assert DELAYS[r] > 0;
    if n < DELAYS[r] { CountsDown(m1, n); }
    CountsDown(m1, DELAYS[r]);
    var due := Run(m1, Ticks(DELAYS[r]));
    StepInv(m, TickEvent);
    RunInv(m1, Ticks(DELAYS[r]));
    CheckSpawns(due);
    StepInv(due, CheckEvent(true));
    RunConcat(m1, Ticks(DELAYS[r]), [CheckEvent(true)]);
    RunOne(due, CheckEvent(true));
  }

  lemma {:induction false} RunOne(m: Machine, ev: Event)
    ensures Run(m, [ev]) == Step(m, ev)
  {
    hide Step;
    assert [ev][1..] == [];
  }

  /** A life of some ticks, a death, the tick that notices it, the delay and the respawn. */
  function Cycle(r: nat, life: nat): seq<Event>
    requires r < 5
  {
    Ticks(life) + ([ExitEvent, TickEvent] + (Ticks(DELAYS[r]) + [CheckEvent(true)]))
  }

  /** A task that has just been started, after lives that were not short. */
  ghost predicate Begun(m: Machine, r: nat) {
    && Inv(m) && m.entry.active && m.entry.task == Live && m.entry.spawnTick == m.now % WRAP && m.entry.unstable == 0
    && |m.history.noticed| == |m.history.spawned| == r
  }

  lemma {:induction false} LivesOn(m: Machine, r: nat, life: nat)
    requires Begun(m, r) && r < 5 && 9 <= life <= WRAP - 2
    ensures Begun(Run(m, Cycle(r, life)), r + 1)
  {
    hide Inv, Run, Step;
    var tail := Ticks(DELAYS[r]) + [CheckEvent(true)];
    RunConcat(m, Ticks(life), [ExitEvent, TickEvent] + tail);
    WhileAlive(m, life);
    var m1 := Run(m, Ticks(life));
    RunInv(m, Ticks(life));
    RunConcat(m1, [ExitEvent, TickEvent], tail);
    RunConcat(m1, [ExitEvent], [TickEvent]);
    assert [ExitEvent] + [TickEvent] == [ExitEvent, TickEvent];
    RunOne(m1, ExitEvent);
    var m2 := Step(m1, ExitEvent);
    RunOne(m2, TickEvent);
    StepInv(m1, ExitEvent);
    Exits(m1);
    GivesUpIff(m2);
    LongLife(m.now, life);
    ComesBack(m2, 0);
  }

  lemma {:induction false} Exits(m: Machine)
    requires m.entry.task == Live
    ensures Step(m, ExitEvent) == m.(entry := m.entry.(task := Dead))
  {
  }

  lemma {:induction false} LongLife(now: nat, life: nat)
    requires 9 <= life <= WRAP - 2
    ensures (now + life + 1 - now % WRAP) % WRAP >= 10
  {
    var q := now / WRAP;
    assert now + life + 1 - now % WRAP == q * WRAP + (life + 1);
    assert (q * WRAP + (life + 1)) % WRAP == life + 1;
  }

  /** The events of lives of these lengths, one after the other, from the r-th on. */
  function Lives(r: nat, lives: seq<nat>): seq<Event>
    requires r + |lives| <= 5
    decreases |lives|
  {
    if lives == [] then [] else Cycle(r, lives[0]) + Lives(r + 1, lives[1..])
  }

  lemma {:induction false} LivesGoOn(m: Machine, r: nat, lives: seq<nat>)
    requires Begun(m, r) && r + |lives| <= 5 && forall l <- lives :: 9 <= l <= WRAP - 2
    ensures Begun(Run(m, Lives(r, lives)), r + |lives|)
    decreases |lives|
  {
    hide Begun, Run, Cycle;
    if lives == [] {
      RunNothing(m);
    } else {
      assert lives[0] in lives && forall l <- lives[1..] :: l in lives;
      LivesOn(m, r, lives[0]);
      RunConcat(m, Cycle(r, lives[0]), Lives(r + 1, lives[1..]));
      LivesGoOn(Run(m, Cycle(r, lives[0])), r + 1, lives[1..]);
    }
  }

  lemma {:induction false} RunNothing(m: Machine)
    ensures Run(m, []) == m
  {
  }

  /** A task whose lives all last ten ticks is respawned after each of its first five deaths; the sixth ends it. */
  lemma {:induction false} FiveRespawns(now: nat, lives: seq<nat>)
    requires |lives| <= 5 && forall l <- lives :: 9 <= l <= WRAP - 2
    ensures var m := Run(Start(now, true), Lives(0, lives));
            && m.entry.active && m.entry.task == Live && |m.history.spawned| == |lives|
            && (Run(m, [ExitEvent, TickEvent]).entry.active <==> |lives| < 5)
  {
    hide Inv, Run, Step, Lives;
    StartInv(now, true);
    LivesGoOn(Start(now, true), 0, lives);
    var m := Run(Start(now, true), Lives(0, lives));
    RunConcat(m, [ExitEvent], [TickEvent]);
    assert [ExitEvent] + [TickEvent] == [ExitEvent, TickEvent];
    RunOne(m, ExitEvent);
    var m1 := Step(m, ExitEvent);
    RunOne(m1, TickEvent);
    Exits(m);
    StepInv(m, ExitEvent);
    GivesUpIff(m1);
  }
}
