/** What the scheduler guarantees over any sequence of ticks with a clock that never runs backwards. */
module ScheduleRuns {
  import opened Common
  import opened Scheduler

  datatype System = System(states: map<Key, ScheduleState>, queued: set<JobKey>)

  /**
    One tick's input: the schedules of the active programs (whatever edits, pauses and re-adds made
    them) and the clock.
  */
  datatype Tick = Tick(entries: seq<Entry>, now: int)

  ghost predicate TickStep(c: Clockwork, a: System, t: Tick, b: System) {
    && UniqueKeys(t.entries)
    && TickStates(c, a.states, b.states, t.entries, t.now)
    && b.queued == a.queued + DueJobs(a.states, t.entries, t.now)
  }

  ghost predicate IsRun(c: Clockwork, ys: seq<System>, ts: seq<Tick>) {
    && IsCalendar(c)
    && |ys| == |ts| + 1
    && ys[0] == System(map[], {})
    && (forall i | 0 <= i < |ts| :: TickStep(c, ys[i], ts[i], ys[i + 1]))
    && (forall i, k | 0 <= i <= k < |ts| :: ts[i].now <= ts[k].now)
  }

  ghost predicate FiresAt(y: System, t: Tick, key: Key) {
    var e := EntryFor(t.entries, key);
    e.Some? && Fires(Lookup(y.states, key), e.value, t.now)
  }

  ghost function StampAt(y: System, key: Key): int {
    if key in y.states then y.states[key].nextRun else 0
  }

  /** The pending run of the key lies in a slot that opens after the instant t. */
  ghost predicate Ahead(c: Clockwork, s: Option<ScheduleState>, t: int) {
    s.Some? ==> exists b :: b > t && InSlot(c, s.value.cron, b, s.value.nextRun)
  }

  lemma TickStaysAhead(c: Clockwork, a: System, t: Tick, b: System, key: Key, limit: int)
    requires IsCalendar(c) && TickStep(c, a, t, b) && limit <= t.now
    requires Ahead(c, Lookup(a.states, key), limit) || FiresAt(a, t, key)
    ensures Ahead(c, Lookup(b.states, key), limit)
    ensures FiresAt(a, t, key) ==> Ahead(c, Lookup(b.states, key), t.now)
  {
    assert Lookup(b.states, key) == match EntryFor(t.entries, key)
      case None => None
      case Some(e) => Some(KeyAfter(c, Lookup(a.states, key), e, t.now));
    var e := EntryFor(t.entries, key);
    if e.Some? {
      EntryForCorrect(t.entries, key);
      NextRunInOwnSlot(c, key.0, key.1, e.value.cron, e.value.jitter, t.now);
    }
  }

  lemma {:induction false} StaysAhead(c: Clockwork, ys: seq<System>, ts: seq<Tick>, i: nat, k: nat, key: Key)
    requires IsRun(c, ys, ts) && i < k <= |ts|
    requires FiresAt(ys[i], ts[i], key)
    ensures Ahead(c, Lookup(ys[k].states, key), ts[i].now)
    decreases k
  {
    assert TickStep(c, ys[k - 1], ts[k - 1], ys[k]);
    if i < k - 1 {
      StaysAhead(c, ys, ts, i, k - 1, key);
    }
    TickStaysAhead(c, ys[k - 1], ts[k - 1], ys[k], key, ts[i].now);
  }

  lemma {:induction false} PendingRunsInSlot(c: Clockwork, ys: seq<System>, ts: seq<Tick>, k: nat, key: Key, t: int)
    requires IsRun(c, ys, ts) && k <= |ts|
    requires forall i | 0 <= i < k :: t <= ts[i].now
    ensures Ahead(c, Lookup(ys[k].states, key), t)
  {
    if k > 0 {
      PendingRunsInSlot(c, ys, ts, k - 1, key, t);
      assert TickStep(c, ys[k - 1], ts[k - 1], ys[k]);
      TickStaysAhead(c, ys[k - 1], ts[k - 1], ys[k], key, t);
    }
  }

  /** Every fired run lies in a slot of the expression it is fired under, and is due. */
  lemma FiredRunIsInASlot(c: Clockwork, ys: seq<System>, ts: seq<Tick>, k: nat, key: Key)
    requires IsRun(c, ys, ts) && k < |ts| && FiresAt(ys[k], ts[k], key)
    ensures StampAt(ys[k], key) <= ts[k].now
    ensures exists b :: InSlot(c, EntryFor(ts[k].entries, key).value.cron, b, StampAt(ys[k], key))
  {
    PendingRunsInSlot(c, ys, ts, k, key, ts[0].now);
  }

  /**
    Stamps of one key strictly increase, and no slot fires twice: the later run's slot opens after
    the earlier run was fired, hence after its stamp. Cron edits, pauses and re-adds in between make
    no difference.
  */
  lemma StampsIncreaseSlotBySlot(c: Clockwork, ys: seq<System>, ts: seq<Tick>, i: nat, k: nat, key: Key)
    requires IsRun(c, ys, ts) && i < k < |ts|
    requires FiresAt(ys[i], ts[i], key) && FiresAt(ys[k], ts[k], key)
    ensures StampAt(ys[i], key) < StampAt(ys[k], key)
    ensures exists b ::
      && InSlot(c, EntryFor(ts[k].entries, key).value.cron, b, StampAt(ys[k], key))
      && StampAt(ys[i], key) <= ts[i].now < b
  {
    StaysAhead(c, ys, ts, i, k, key);
    FiredRunIsInASlot(c, ys, ts, i, key);
  }

  // ---------------------------------------------------------------- dedupe keys

  lemma {:induction false} DueJobsAre(states: map<Key, ScheduleState>, es: seq<Entry>, now: int, jk: JobKey)
    ensures jk in DueJobs(states, es, now) <==>
      exists e :: e in es && Fires(Lookup(states, e.key), e, now) && jk in DueKeys(e, Stamp(states, e))
  {
    if es != [] {
      DueJobsAre(states, es[..|es| - 1], now, jk);
      assert es == es[..|es| - 1] + [es[|es| - 1]];
    }
  }

  /** A key in the queue was put there by a fire of its (program, kind) with its stamp. */
  lemma {:induction false} QueuedKeysWereFired(c: Clockwork, ys: seq<System>, ts: seq<Tick>, n: nat, jk: JobKey)
    returns (i: nat)
    requires IsRun(c, ys, ts) && n <= |ts| && jk in ys[n].queued
    ensures i < n && FiresAt(ys[i], ts[i], (jk.program, jk.kind)) && StampAt(ys[i], (jk.program, jk.kind)) == jk.stamp
  {
    assert n > 0;
    assert TickStep(c, ys[n - 1], ts[n - 1], ys[n]);
    if jk in ys[n - 1].queued {
      i := QueuedKeysWereFired(c, ys, ts, n - 1, jk);
    } else {
      i := n - 1;
      DueJobsAre(ys[i].states, ts[i].entries, ts[i].now, jk);
      var e :| && e in ts[i].entries && Fires(Lookup(ys[i].states, e.key), e, ts[i].now)
               && jk in DueKeys(e, Stamp(ys[i].states, e));
      EntryForUnique(ts[i].entries, e);
    }
  }

  lemma {:induction false} EntryForUnique(es: seq<Entry>, e: Entry)
    requires UniqueKeys(es) && e in es
    ensures EntryFor(es, e.key) == Some(e)
  {
    var last := es[|es| - 1];
    assert es == es[..|es| - 1] + [last];
    if last.key != e.key {
      EntryForUnique(es[..|es| - 1], e);
    } else {
      assert forall k | 0 <= k < |es| - 1 :: es[k].key != last.key;
    }
  }

  /** No scheduled fire is swallowed: none of its dedupe keys has ever been used before. */
  lemma FiresAreNeverSwallowed(c: Clockwork, ys: seq<System>, ts: seq<Tick>, k: nat, e: Entry)
    requires IsRun(c, ys, ts) && k < |ts| && e in ts[k].entries
    requires Fires(Lookup(ys[k].states, e.key), e, ts[k].now)
    ensures DueKeys(e, Stamp(ys[k].states, e)) !! ys[k].queued
  {
    assert TickStep(c, ys[k], ts[k], ys[k + 1]);
    EntryForUnique(ts[k].entries, e);
    forall jk | jk in DueKeys(e, Stamp(ys[k].states, e)) ensures jk !in ys[k].queued {
      if jk in ys[k].queued {
        var i := QueuedKeysWereFired(c, ys, ts, k, jk);
        StampsIncreaseSlotBySlot(c, ys, ts, i, k, e.key);
      }
    }
  }

  // ---------------------------------------------------------------- completeness

  /** The n-th slot of the expression after the instant t. */
  ghost function Slot(c: Clockwork, e: string, t: int, n: nat): int {
    if n == 0 then c.next(e, t) else c.next(e, Slot(c, e, t, n - 1))
  }

  /** The jittered run of the n-th slot. */
  ghost function RunOf(c: Clockwork, e: Entry, t: int, n: nat): int {
    JitteredRun(c, e.key.0, e.key.1, e.cron, e.jitter, Slot(c, e.cron, t, n))
  }

  lemma {:induction false} SlotFacts(c: Clockwork, e: Entry, t: int, n: nat)
    requires IsCalendar(c)
    ensures Slot(c, e.cron, t, n) <= RunOf(c, e, t, n) < Slot(c, e.cron, t, n + 1)
  {
    JitterStaysInSlot(c, e.key.0, e.key.1, e.cron, e.jitter, Slot(c, e.cron, t, n));
  }

  /** One tick of a steady schedule whose pending run is that of slot m. */
  lemma SteadyTick(c: Clockwork, e: Entry, t: int, m: nat, s: ScheduleState, now: int)
    requires IsCalendar(c) && s.cron == e.cron && s.nextRun == RunOf(c, e, t, m)
    requires RunOf(c, e, t, m) <= now ==> now < Slot(c, e.cron, t, m + 1)
    ensures Fires(Some(s), e, now) <==> RunOf(c, e, t, m) <= now
    ensures var s' := KeyAfter(c, Some(s), e, now);
      s'.cron == e.cron && s'.nextRun == RunOf(c, e, t, if RunOf(c, e, t, m) <= now then m + 1 else m)
  {
    SlotFacts(c, e, t, m);
    var b := Slot(c, e.cron, t, m);
    if RunOf(c, e, t, m) <= now {
      assert c.next(e.cron, now) == c.next(e.cron, b);
    }
  }

  /** What the key fired from tick a up to, but without, tick n. */
  ghost function FiredStamps(ys: seq<System>, ts: seq<Tick>, key: Key, a: nat, n: nat): seq<int>
    requires a <= n <= |ts| < |ys|
  {
    if n == a then []
    else
      var earlier := FiredStamps(ys, ts, key, a, n - 1);
      if FiresAt(ys[n - 1], ts[n - 1], key) then earlier + [StampAt(ys[n - 1], key)] else earlier
  }

  /** From tick a on the schedule e is active and unchanged, and tick a is the one that takes it up. */
  ghost predicate SteadyFrom(ys: seq<System>, ts: seq<Tick>, e: Entry, a: nat) {
    && a < |ts| < |ys|
    && (forall i | a <= i < |ts| :: EntryFor(ts[i].entries, e.key) == Some(e))
    && (e.key !in ys[a].states || ys[a].states[e.key].cron != e.cron)
  }

  /** Some tick from a on falls between the n-th run and the next slot. */
  ghost predicate Covered(c: Clockwork, ts: seq<Tick>, e: Entry, a: nat, n: nat)
    requires a < |ts|
  {
    exists i | a <= i < |ts| ::
      RunOf(c, e, ts[a].now, n) <= ts[i].now < Slot(c, e.cron, ts[a].now, n + 1)
  }

  /** The runs fired so far are the first ones, and the next one is pending and not yet due at the last tick. */
  ghost predicate OnSchedule(c: Clockwork, e: Entry, t: int, slots: nat, y: System, fired: seq<int>, last: int) {
    && (forall m | 0 <= m < |fired| && m < slots :: fired[m] == RunOf(c, e, t, m))
    && (|fired| <= slots ==>
          && e.key in y.states
          && y.states[e.key].cron == e.cron
          && y.states[e.key].nextRun == RunOf(c, e, t, |fired|)
          && last < RunOf(c, e, t, |fired|))
  }

  lemma OnScheduleStep(c: Clockwork, e: Entry, t: int, slots: nat, a: System, tick: Tick, b: System, fired: seq<int>,
          last: int)
    requires IsCalendar(c) && TickStep(c, a, tick, b) && EntryFor(tick.entries, e.key) == Some(e)
    requires OnSchedule(c, e, t, slots, a, fired, last)
    requires |fired| < slots && RunOf(c, e, t, |fired|) <= tick.now ==> tick.now < Slot(c, e.cron, t, |fired| + 1)
    ensures OnSchedule(c, e, t, slots, b,
                       if FiresAt(a, tick, e.key) then fired + [StampAt(a, e.key)] else fired, tick.now)
  {
    assert Lookup(b.states, e.key) == Some(KeyAfter(c, Lookup(a.states, e.key), e, tick.now));
    var m := |fired|;
    if m < slots || (m == slots && tick.now < RunOf(c, e, t, m)) {
      SteadyTick(c, e, t, m, a.states[e.key], tick.now);
      SlotFacts(c, e, t, m + 1);
    }
  }

  /** The tick that takes a schedule up fires nothing and plans the first slot after it. */
  lemma TakenUp(c: Clockwork, e: Entry, slots: nat, y: System, tick: Tick, y': System)
    requires IsCalendar(c) && TickStep(c, y, tick, y') && EntryFor(tick.entries, e.key) == Some(e)
    requires e.key !in y.states || y.states[e.key].cron != e.cron
    ensures !FiresAt(y, tick, e.key)
    ensures OnSchedule(c, e, tick.now, slots, y', [], tick.now)
  {
    SlotFacts(c, e, tick.now, 0);
    assert Lookup(y'.states, e.key) == Some(KeyAfter(c, Lookup(y.states, e.key), e, tick.now));
  }

  lemma OneMoreTick(c: Clockwork, ys: seq<System>, ts: seq<Tick>, e: Entry, slots: nat, a: nat, n: nat)
    requires IsRun(c, ys, ts) && SteadyFrom(ys, ts, e, a) && a + 1 < n <= |ts|
    requires forall m | 0 <= m < slots :: Covered(c, ts, e, a, m)
    requires OnSchedule(c, e, ts[a].now, slots, ys[n - 1], FiredStamps(ys, ts, e.key, a, n - 1), ts[n - 2].now)
    ensures OnSchedule(c, e, ts[a].now, slots, ys[n], FiredStamps(ys, ts, e.key, a, n), ts[n - 1].now)
  {
    var fired := FiredStamps(ys, ts, e.key, a, n - 1);
    if |fired| < slots {
      WindowIsOpen(c, ts, e, |fired|, a, n);
    }
    assert TickStep(c, ys[n - 1], ts[n - 1], ys[n]);
    OnScheduleStep(c, e, ts[a].now, slots, ys[n - 1], ts[n - 1], ys[n], fired, ts[n - 2].now);
  }

  lemma {:induction false} StaysOnSchedule(c: Clockwork, ys: seq<System>, ts: seq<Tick>, e: Entry, slots: nat, a: nat,
          n: nat)
    requires IsRun(c, ys, ts) && SteadyFrom(ys, ts, e, a) && a < n <= |ts|
    requires forall m | 0 <= m < slots :: Covered(c, ts, e, a, m)
    ensures OnSchedule(c, e, ts[a].now, slots, ys[n], FiredStamps(ys, ts, e.key, a, n), ts[n - 1].now)
  {
    if n == a + 1 {
      assert TickStep(c, ys[a], ts[a], ys[n]);
      TakenUp(c, e, slots, ys[a], ts[a], ys[n]);
      assert FiredStamps(ys, ts, e.key, a, n) == FiredStamps(ys, ts, e.key, a, a) == [];
    } else {
      StaysOnSchedule(c, ys, ts, e, slots, a, n - 1);
      OneMoreTick(c, ys, ts, e, slots, a, n);
    }
  }

  /** A run that falls due at this tick falls due inside its window. */
  lemma WindowIsOpen(c: Clockwork, ts: seq<Tick>, e: Entry, m: nat, a: nat, n: nat)
    requires a + 1 < n <= |ts| && Covered(c, ts, e, a, m)
    requires forall i, k | 0 <= i <= k < |ts| :: ts[i].now <= ts[k].now
    requires ts[n - 2].now < RunOf(c, e, ts[a].now, m)
    ensures RunOf(c, e, ts[a].now, m) <= ts[n - 1].now ==> ts[n - 1].now < Slot(c, e.cron, ts[a].now, m + 1)
  {
  }

  /**
    From the tick that takes a schedule up, because it is new, re-added or edited, each of its first
    `slots` slots is fired exactly once and in order, when every window holds a tick.
  */
  lemma EverySlotFiresOnceInOrder(c: Clockwork, ys: seq<System>, ts: seq<Tick>, e: Entry, slots: nat, a: nat)
    requires IsRun(c, ys, ts) && SteadyFrom(ys, ts, e, a)
    requires forall m | 0 <= m < slots :: Covered(c, ts, e, a, m)
    ensures var fired := FiredStamps(ys, ts, e.key, a, |ts|);
      && |fired| >= slots
      && (forall m | 0 <= m < slots :: fired[m] == RunOf(c, e, ts[a].now, m))
  {
    var fired := FiredStamps(ys, ts, e.key, a, |ts|);
    StaysOnSchedule(c, ys, ts, e, slots, a, |ts|);
    assert |fired| < slots ==> Covered(c, ts, e, a, |fired|);
  }
}
