/** What one tick reads, fires and stores, told in the fields of the manifests and of the schedule table. */
module ScheduleMeaning {
  import opened Common
  import opened Scheduler

  /**
    The jittered run: whole seconds after the slot opens, as many as the digest leaves modulo one more
    than the ceiling, which is the jitter or, if that is less, a second under the length of the slot.
  */
  lemma JitteredRunIs(c: Clockwork, program: string, kind: string, e: string, jitter: nat, base: int)
    requires IsCalendar(c)
    ensures
      var slot := (c.next(e, base) - base) / 1_000_000;
      var ceiling := if slot <= 1 then 0 else if jitter < slot - 1 then jitter else slot - 1;
      JitteredRun(c, program, kind, e, jitter, base) ==
      base + (c.digest(program, kind, base) % (ceiling + 1)) * 1_000_000
  {
  }

  /** What a manifest switches on for a kind of job. */
  predicate Enabled(m: Manifest, kind: string) {
    || (kind == "bbot" && m.bbot)
    || (kind == "nuclei" && m.nuclei)
    || (kind == "github" && m.repositories)
    || (kind == "gitleaks" && m.repositories)
    || (kind == "shodan" && m.shodan)
  }

  lemma JobEnabledMeaning(m: Manifest, kind: string)
    ensures JobEnabled(m, kind) <==> Enabled(m, kind)
  {
  }

  lemma {:induction false} ExactRepositoriesMeaning(rules: seq<string>, r: string)
    ensures r in ExactRepositories(rules) <==> r in rules && '*' !in r
  {
    if rules != [] {
      ExactRepositoriesMeaning(rules[1..], r);
      assert forall q :: q in rules <==> q == rules[0] || q in rules[1..];
    }
  }

  /** The schedule stands in the manifest, valid and enabled, with the manifest's jitter and exact repositories. */
  ghost predicate ComesFrom(c: Clockwork, m: Manifest, e: Entry) {
    && e.key.0 == m.programId && (e.key.1, e.cron) in m.schedules
    && c.valid(e.cron) && Enabled(m, e.key.1)
    && e.jitter == m.jitter && e.repositories == ExactRepositories(m.repositoryRules)
  }

  lemma {:induction false} ManifestEntriesMeaning(c: Clockwork, m: Manifest, n: nat, e: Entry)
    requires n <= |m.schedules|
    ensures e in ManifestEntries(c, m, n) <==> ComesFrom(c, m.(schedules := m.schedules[..n]), e)
  {
    if n > 0 {
      ManifestEntriesMeaning(c, m, n - 1, e);
      assert m.schedules[..n] == m.schedules[..n - 1] + [m.schedules[n - 1]];
      JobEnabledMeaning(m, m.schedules[n - 1].0);
    }
  }

  /** The schedules a tick acts on are exactly those of the stored manifests that validate. */
  lemma {:induction false} EntriesMeaning(c: Clockwork, programs: seq<Option<Manifest>>, e: Entry)
    ensures e in Entries(c, programs) <==> exists p <- programs :: p.Some? && ComesFrom(c, p.value, e)
  {
    if programs != [] {
      var init, last := programs[..|programs| - 1], programs[|programs| - 1];
      EntriesMeaning(c, init, e);
      assert programs == init + [last];
      assert forall p :: p in programs <==> p in init || p == last;
      if last.Some? {
        var m := last.value;
        ManifestEntriesMeaning(c, m, |m.schedules|, e);
        assert m.schedules[..|m.schedules|] == m.schedules && m.(schedules := m.schedules) == m;
      }
    }
  }

  /** The schedule's stored run is due under the stored expression. */
  ghost predicate Due(states: map<Key, ScheduleState>, e: Entry, now: int) {
    e.key in states && states[e.key].cron == e.cron && states[e.key].nextRun <= now
  }

  /** One job per due schedule, stamped with the run that was due, or one per repository for a repository scan. */
  lemma {:induction false} DueJobsMeaning(states: map<Key, ScheduleState>, es: seq<Entry>, now: int, job: JobKey)
    ensures job in DueJobs(states, es, now) <==>
      exists e <- es ::
        && Due(states, e, now)
        && job.program == e.key.0 && job.kind == e.key.1 && job.stamp == states[e.key].nextRun
        && if e.key.1 == "gitleaks" then job.repository.Some? && job.repository.value in e.repositories
           else job.repository.None?
  {
    if es != [] {
      DueJobsMeaning(states, es[..|es| - 1], now, job);
      assert es == es[..|es| - 1] + [es[|es| - 1]];
      assert forall e :: e in es <==> e in es[..|es| - 1] || e == es[|es| - 1];
    }
  }

  function FiringPlaces(states: map<Key, ScheduleState>, es: seq<Entry>, now: int): set<nat> {
    set k: nat | k < |es| && Fires(Lookup(states, es[k].key), es[k], now)
  }

  /** The number a tick returns is the number of schedules that were due. */
  lemma {:induction false} CountFiresMeaning(states: map<Key, ScheduleState>, es: seq<Entry>, now: int)
    ensures CountFires(states, es, now) == |FiringPlaces(states, es, now)|
    ensures forall e <- es :: Fires(Lookup(states, e.key), e, now) <==> Due(states, e, now)
  {
    if es == [] {
      assert FiringPlaces(states, es, now) == {};
    } else {
      var n := |es| - 1;
      CountFiresMeaning(states, es[..n], now);
      assert FiringPlaces(states, es, now) ==
        FiringPlaces(states, es[..n], now) + if Fires(Lookup(states, es[n].key), es[n], now) then {n} else {};
      assert n !in FiringPlaces(states, es[..n], now);
    }
  }

  /**
    The state a tick leaves for an active schedule: the next run after now when it is new, edited or
    fired, and what it was otherwise; the last run is stamped only by a fire.
  */
  lemma StateAfterTick(c: Clockwork, before: map<Key, ScheduleState>, after: map<Key, ScheduleState>,
        es: seq<Entry>, now: int, e: Entry)
    requires UniqueKeys(es) && e in es && TickStates(c, before, after, es, now)
    ensures
      var next := JitteredRun(c, e.key.0, e.key.1, e.cron, e.jitter, c.next(e.cron, now));
      && e.key in after && after[e.key].cron == e.cron
      && (e.key !in before ==> after[e.key].nextRun == next && after[e.key].lastRun.None?)
      && (e.key in before && before[e.key].cron != e.cron ==>
            after[e.key].nextRun == next && after[e.key].lastRun == before[e.key].lastRun)
      && (Due(before, e, now) ==> after[e.key].nextRun == next && after[e.key].lastRun == Some(now))
      && (e.key in before && before[e.key].cron == e.cron && before[e.key].nextRun > now ==>
            after[e.key] == before[e.key])
  {
    UniqueEntry(es, e);
    assert Lookup(after, e.key) == Some(KeyAfter(c, Lookup(before, e.key), e, now));
  }

  /** Every other schedule's state is deleted. */
  lemma OtherStatesAreDeleted(c: Clockwork, before: map<Key, ScheduleState>, after: map<Key, ScheduleState>,
        es: seq<Entry>, now: int, key: Key)
    requires TickStates(c, before, after, es, now) && forall e <- es :: e.key != key
    ensures key !in after
  {
    EntryForCorrect(es, key);
    assert Lookup(after, key) == match EntryFor(es, key)
      case None => None
      case Some(e) => Some(KeyAfter(c, Lookup(before, key), e, now));
  }

  lemma UniqueEntry(es: seq<Entry>, e: Entry)
    requires UniqueKeys(es) && e in es
    ensures EntryFor(es, e.key) == Some(e)
  {
    EntryForCorrect(es, e.key);
    var f := EntryFor(es, e.key).value;
    var i :| 0 <= i < |es| && es[i] == e;
    var k :| 0 <= k < |es| && es[k] == f;
    assert !(i < k) && !(k < i);
  }
}
