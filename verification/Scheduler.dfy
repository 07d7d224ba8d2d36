/**
  Jittered cron schedules (bbpipeline/scheduler.py): one pending run per (program, job kind), fired
  by ticks, and a queue that keeps every dedupe key for ever. Instants are integers counting
  microseconds.
*/
module Scheduler {
  import opened Common

  const SECOND := 1_000_000

  /** The cron iterator, its validity test, and the jitter digest of (program, kind, slot). */
  datatype Clockwork = Clockwork(
    next: (string, int) -> int,
    valid: string -> bool,
    digest: (string, string, int) -> nat)

  /** next(e, t) is the first instant after t at which the expression e fires. */
  ghost predicate IsCalendar(c: Clockwork) {
    && (forall e, t :: c.next(e, t) > t)
    && (forall e, t, u :: t <= u < c.next(e, t) ==> c.next(e, u) == c.next(e, t))
  }

  ghost predicate IsCronTime(c: Clockwork, e: string, b: int) {
    c.next(e, b - 1) == b
  }

  /** The instant t lies in the slot that the cron time b opens. */
  ghost predicate InSlot(c: Clockwork, e: string, b: int, t: int) {
    IsCronTime(c, e, b) && b <= t < c.next(e, b)
  }

  /** The run of the slot that opens at base. */
  function JitteredRun(c: Clockwork, program: string, kind: string, e: string, jitter: nat, base: int): int {
    var following := c.next(e, base);
    var intervalCeiling := if (following - base) / SECOND - 1 < 0 then 0 else (following - base) / SECOND - 1;
    var ceiling := if jitter < intervalCeiling then jitter else intervalCeiling;
    if ceiling == 0 then base
    else base + c.digest(program, kind, base) % (ceiling + 1) * SECOND
  }

  function NextRun(c: Clockwork, program: string, kind: string, e: string, jitter: nat, after: int): int {
    JitteredRun(c, program, kind, e, jitter, c.next(e, after))
  }

  /** The jittered run stays inside its slot, and never before the slot or more than the jitter after it. */
  lemma JitterStaysInSlot(c: Clockwork, program: string, kind: string, e: string, jitter: nat, base: int)
    requires IsCalendar(c)
    ensures var run := JitteredRun(c, program, kind, e, jitter, base);
      base <= run < c.next(e, base) && run <= base + jitter * SECOND
  {
  }

  lemma NextRunInOwnSlot(c: Clockwork, program: string, kind: string, e: string, jitter: nat, after: int)
    requires IsCalendar(c)
    ensures InSlot(c, e, c.next(e, after), NextRun(c, program, kind, e, jitter, after))
    ensures c.next(e, after) > after
  {
    var base := c.next(e, after);
    assert c.next(e, base - 1) == base;
    JitterStaysInSlot(c, program, kind, e, jitter, base);
  }

  // ---------------------------------------------------------------- the tables

  type Key = (string, string)

  datatype ScheduleState = ScheduleState(cron: string, nextRun: int, lastRun: Option<int>)

  /** The dedupe key of a scheduled job. */
  datatype JobKey = JobKey(program: string, kind: string, repository: Option<string>, stamp: int)

  /** What the tick reads from a stored manifest. */
  datatype Manifest = Manifest(
    programId: string,
    bbot: bool, nuclei: bool, repositories: bool, shodan: bool,
    schedules: seq<(string, string)>,
    jitter: nat,
    repositoryRules: seq<string>)

  predicate JobEnabled(m: Manifest, kind: string) {
    match kind
    case "bbot" => m.bbot
    case "nuclei" => m.nuclei
    case "github" => m.repositories
    case "gitleaks" => m.repositories
    case "shodan" => m.shodan
    case _ => false
  }

  function ExactRepositories(rules: seq<string>): seq<string> {
    if rules == [] then []
    else (if '*' in rules[0] then [] else [rules[0]]) + ExactRepositories(rules[1..])
  }

  /** A schedule the tick acts on. */
  datatype Entry = Entry(key: Key, cron: string, jitter: nat, repositories: seq<string>)

  function ManifestEntries(c: Clockwork, m: Manifest, n: nat): seq<Entry>
    requires n <= |m.schedules|
  {
    if n == 0 then []
    else
      var (kind, e) := m.schedules[n - 1];
      ManifestEntries(c, m, n - 1)
      + if JobEnabled(m, kind) && c.valid(e)
        then [Entry((m.programId, kind), e, m.jitter, ExactRepositories(m.repositoryRules))]
        else []
  }

  /** None stands for a stored manifest that no longer validates. */
  function Entries(c: Clockwork, programs: seq<Option<Manifest>>): seq<Entry> {
    if programs == [] then []
    else
      var last := programs[|programs| - 1];
      Entries(c, programs[..|programs| - 1])
      + if last.Some? then ManifestEntries(c, last.value, |last.value.schedules|) else []
  }

  ghost predicate UniqueKeys(es: seq<Entry>) {
    forall i, j | 0 <= i < j < |es| :: es[i].key != es[j].key
  }

  function EntryFor(es: seq<Entry>, key: Key): Option<Entry> {
    if es == [] then None
    else if es[|es| - 1].key == key then Some(es[|es| - 1])
    else EntryFor(es[..|es| - 1], key)
  }

  function Lookup<V>(m: map<Key, V>, key: Key): Option<V> {
    if key in m then Some(m[key]) else None
  }

  // ---------------------------------------------------------------- one schedule, one tick

  predicate Fires(s: Option<ScheduleState>, e: Entry, now: int) {
    s.Some? && s.value.cron == e.cron && s.value.nextRun <= now
  }

  function KeyAfter(c: Clockwork, s: Option<ScheduleState>, e: Entry, now: int): ScheduleState {
    var next := NextRun(c, e.key.0, e.key.1, e.cron, e.jitter, now);
    if s.None? then ScheduleState(e.cron, next, None)
    else if s.value.cron != e.cron then s.value.(cron := e.cron, nextRun := next)
    else if s.value.nextRun <= now then s.value.(nextRun := next, lastRun := Some(now))
    else s.value
  }

  function DueKeys(e: Entry, stamp: int): set<JobKey> {
    if e.key.1 == "gitleaks"
    then set r <- e.repositories :: JobKey(e.key.0, "gitleaks", Some(r), stamp)
    else {JobKey(e.key.0, e.key.1, None, stamp)}
  }

  function Stamp(states: map<Key, ScheduleState>, e: Entry): int {
    if e.key in states then states[e.key].nextRun else 0
  }

  /** The jobs a tick enqueues for the schedules es. */
  ghost function DueJobs(states: map<Key, ScheduleState>, es: seq<Entry>, now: int): set<JobKey> {
    if es == [] then {}
    else
      var e := es[|es| - 1];
      DueJobs(states, es[..|es| - 1], now)
      + if Fires(Lookup(states, e.key), e, now) then DueKeys(e, Stamp(states, e)) else {}
  }

  function CountFires(states: map<Key, ScheduleState>, es: seq<Entry>, now: int): nat {
    if es == [] then 0
    else
      var e := es[|es| - 1];
      CountFires(states, es[..|es| - 1], now) + if Fires(Lookup(states, e.key), e, now) then 1 else 0
  }

  /** A whole tick, schedule by schedule: every active key takes its own step, every other key is gone. */
  ghost predicate TickStates(c: Clockwork, before: map<Key, ScheduleState>, after: map<Key, ScheduleState>,
          es: seq<Entry>, now: int) {
    forall key: Key :: Lookup(after, key) ==
      match EntryFor(es, key)
      case None => None
      case Some(e) => Some(KeyAfter(c, Lookup(before, key), e, now))
  }

  class SchedulerTables {
    var states: map<Key, ScheduleState>
    var queued: set<JobKey>   // the dedupe keys of every scheduled job ever enqueued

    constructor ()
      ensures states == map[] && queued == {}
    {
      states, queued := map[], {};
    }

    method EnqueueDue(e: Entry, scheduledFor: int)
      modifies this`queued
      ensures queued == old(queued) + DueKeys(e, scheduledFor)
    {
      if e.key.1 == "gitleaks" {
        for i := 0 to |e.repositories|
          invariant queued == old(queued)
                              + set r <- e.repositories[..i] :: JobKey(e.key.0, "gitleaks", Some(r), scheduledFor)
        {
          assert e.repositories[..i + 1] == e.repositories[..i] + [e.repositories[i]];
          queued := queued + {JobKey(e.key.0, "gitleaks", Some(e.repositories[i]), scheduledFor)};
        }
        assert e.repositories[..|e.repositories|] == e.repositories;
        return;
      }
      queued := queued + {JobKey(e.key.0, e.key.1, None, scheduledFor)};
    }

    /** The body of the tick for one schedule. */
    method TickEntry(c: Clockwork, e: Entry, now: int) returns (fired: bool)
      modifies this
      ensures fired <==> Fires(Lookup(old(states), e.key), e, now)
      ensures states == old(states)[e.key := KeyAfter(c, Lookup(old(states), e.key), e, now)]
      ensures queued == old(queued) + if fired then DueKeys(e, Stamp(old(states), e)) else {}
    {
      fired := false;
      if e.key !in states {
        states := states[e.key := ScheduleState(e.cron, NextRun(c, e.key.0, e.key.1, e.cron, e.jitter, now), None)];
        return;
      }
      var state := states[e.key];
      if state.cron != e.cron {
        state := state.(cron := e.cron, nextRun := NextRun(c, e.key.0, e.key.1, e.cron, e.jitter, now));
        states := states[e.key := state];
        return;
      }
      if state.nextRun <= now {
        EnqueueDue(e, state.nextRun);
        fired := true;
        state := state.(lastRun := Some(now), nextRun := NextRun(c, e.key.0, e.key.1, e.cron, e.jitter, now));
      }
      states := states[e.key := state];
    }

    /** The schedules of one program. */
    method TickProgram(c: Clockwork, m: Manifest, now: int, activeKeys: set<Key>, fires: nat)
      returns (activeKeys': set<Key>, fires': nat)
      modifies this
      ensures Tables(states, queued, activeKeys', fires') ==
        Fold(c, old(Tables(states, queued, activeKeys, fires)), ManifestEntries(c, m, |m.schedules|), now)
    {
      activeKeys', fires' := activeKeys, fires;
      for k := 0 to |m.schedules|
        invariant Tables(states, queued, activeKeys', fires') ==
          Fold(c, old(Tables(states, queued, activeKeys, fires)), ManifestEntries(c, m, k), now)
      {
        var (kind, expression) := m.schedules[k];
        if !JobEnabled(m, kind) || !c.valid(expression) {
          assert ManifestEntries(c, m, k + 1) == ManifestEntries(c, m, k);
          continue;
        }
        var e := Entry((m.programId, kind), expression, m.jitter, ExactRepositories(m.repositoryRules));
        assert ManifestEntries(c, m, k + 1) == ManifestEntries(c, m, k) + [e];
        assert ManifestEntries(c, m, k + 1)[..|ManifestEntries(c, m, k)|] == ManifestEntries(c, m, k);
        activeKeys' := activeKeys' + {e.key};
        var fired := TickEntry(c, e, now);
        fires' := fires' + if fired then 1 else 0;
      }
    }

    method Tick(c: Clockwork, programs: seq<Option<Manifest>>, now: int) returns (fires: nat)
      requires UniqueKeys(Entries(c, programs))
      modifies this
      ensures TickStates(c, old(states), states, Entries(c, programs), now)
      ensures queued == old(queued) + DueJobs(old(states), Entries(c, programs), now)
      ensures fires == CountFires(old(states), Entries(c, programs), now)
    {
      fires := 0;
      var activeKeys: set<Key> := {};
      ghost var start := Tables(states, queued, {}, 0);
      for i := 0 to |programs|
        invariant Tables(states, queued, activeKeys, fires) == Fold(c, start, Entries(c, programs[..i]), now)
      {
        assert programs[..i + 1][..i] == programs[..i];
        if programs[i].Some? {
          var m := programs[i].value;
          FoldConcat(c, start, Entries(c, programs[..i]), ManifestEntries(c, m, |m.schedules|), now);
          activeKeys, fires := TickProgram(c, m, now, activeKeys, fires);
        } else {
          assert Entries(c, programs[..i + 1]) == Entries(c, programs[..i]);
        }
      }
      assert programs[..|programs|] == programs;
      FoldProgress(c, start, Entries(c, programs), now);
      ghost var ticked := states;
      states := map key | key in states && key in activeKeys :: states[key];
      SweepCompletesTick(c, start.states, ticked, states, Entries(c, programs), now);
    }
  }

  /** The tick's tables while its loops run. */
  datatype Tables = Tables(states: map<Key, ScheduleState>, queued: set<JobKey>, activeKeys: set<Key>, fires: nat)

  function EntryStep(c: Clockwork, t: Tables, e: Entry, now: int): Tables {
    var fired := Fires(Lookup(t.states, e.key), e, now);
    Tables(t.states[e.key := KeyAfter(c, Lookup(t.states, e.key), e, now)],
           t.queued + (if fired then DueKeys(e, Stamp(t.states, e)) else {}),
           t.activeKeys + {e.key},
           t.fires + if fired then 1 else 0)
  }

  function Fold(c: Clockwork, t: Tables, es: seq<Entry>, now: int): Tables {
    if es == [] then t else EntryStep(c, Fold(c, t, es[..|es| - 1], now), es[|es| - 1], now)
  }

  lemma {:induction false} FoldConcat(c: Clockwork, t: Tables, a: seq<Entry>, b: seq<Entry>, now: int)
    ensures Fold(c, t, a + b, now) == Fold(c, Fold(c, t, a, now), b, now)
  {
    if b == [] {
      assert a + b == a;
    } else {
      FoldConcat(c, t, a, b[..|b| - 1], now);
      assert (a + b)[..|a + b| - 1] == a + b[..|b| - 1];
    }
  }

  /** Every schedule handled so far has taken its step, and every other key is as it was. */
  ghost predicate ProgressOfStates(c: Clockwork, start: Tables, t: Tables, done: seq<Entry>, now: int) {
    && t.activeKeys == (set e <- done :: e.key)
    && (forall e <- done :: e.key in t.states && t.states[e.key] == KeyAfter(c, Lookup(start.states, e.key), e, now))
    && (forall key | key !in t.activeKeys :: Lookup(t.states, key) == Lookup(start.states, key))
  }

  /** What the loops have done once they have handled the schedules in done. */
  ghost predicate Progress(c: Clockwork, start: Tables, t: Tables, done: seq<Entry>, now: int) {
    && ProgressOfStates(c, start, t, done, now)
    && t.queued == start.queued + DueJobs(start.states, done, now)
    && t.fires == CountFires(start.states, done, now)
  }

  lemma {:induction false} FoldProgress(c: Clockwork, start: Tables, es: seq<Entry>, now: int)
    requires UniqueKeys(es) && start.activeKeys == {} && start.fires == 0
    ensures Progress(c, start, Fold(c, start, es, now), es, now)
  {
    if es != [] {
      var done, e := es[..|es| - 1], es[|es| - 1];
      FoldProgress(c, start, done, now);
      assert es == done + [e];
      NextKeyIsNew(es, done, e);
      ProgressStep(c, start, Fold(c, start, done, now), done, e, now);
    }
  }

  lemma ProgressStep(c: Clockwork, start: Tables, t: Tables, done: seq<Entry>, e: Entry, now: int)
    requires Progress(c, start, t, done, now) && e.key !in t.activeKeys
    ensures Progress(c, start, EntryStep(c, t, e, now), done + [e], now)
  {
    StatesStep(c, start, t, done, e, now);
    assert Lookup(t.states, e.key) == Lookup(start.states, e.key);
    assert (done + [e])[..|done|] == done;
  }

  lemma StatesStep(c: Clockwork, start: Tables, t: Tables, done: seq<Entry>, e: Entry, now: int)
    requires ProgressOfStates(c, start, t, done, now) && e.key !in t.activeKeys
    ensures ProgressOfStates(c, start, EntryStep(c, t, e, now), done + [e], now)
  {
  }

  lemma NextKeyIsNew(all: seq<Entry>, done: seq<Entry>, e: Entry)
    requires UniqueKeys(all) && done + [e] <= all
    ensures e.key !in set d <- done :: d.key
  {
    forall i | 0 <= i < |done| ensures done[i].key != e.key {
      assert all[i] == (done + [e])[i] && all[|done|] == (done + [e])[|done|];
    }
  }

  lemma SweepCompletesTick(c: Clockwork, states0: map<Key, ScheduleState>, ticked: map<Key, ScheduleState>,
          swept: map<Key, ScheduleState>, es: seq<Entry>, now: int)
    requires forall e <- es :: e.key in ticked && ticked[e.key] == KeyAfter(c, Lookup(states0, e.key), e, now)
    requires swept == map key | key in ticked && key in (set e <- es :: e.key) :: ticked[key]
    ensures TickStates(c, states0, swept, es, now)
  {
    forall key: Key
      ensures Lookup(swept, key) ==
        match EntryFor(es, key)
        case None => None
        case Some(e) => Some(KeyAfter(c, Lookup(states0, key), e, now))
    {
      EntryForCorrect(es, key);
    }
  }

  lemma {:induction false} EntryForCorrect(es: seq<Entry>, key: Key)
    ensures EntryFor(es, key).None? <==> forall e <- es :: e.key != key
    ensures EntryFor(es, key).Some? ==> EntryFor(es, key).value in es && EntryFor(es, key).value.key == key
  {
    if es != [] {
      EntryForCorrect(es[..|es| - 1], key);
      assert es == es[..|es| - 1] + [es[|es| - 1]];
    }
  }
}
