/** What the approval gate guarantees over every interleaving of its two writers. */
module GateRuns {
  import opened Common
  import opened ApprovalGate

  datatype Step =
    | SourceSync(config: SourceConfig, fetch: Fetch, now: int, maxStale: nat)
    | ProgramSync(env: Settings, loaded: seq<LoadedManifest>, invalid: seq<InvalidManifest>)

  ghost predicate Follows(g: Gate, s: Step, g': Gate) {
    match s
    case SourceSync(c, f, now, maxStale) => g' == AfterSourceSync(g, c, f, now, maxStale)
    case ProgramSync(env, loaded, invalid) => UniqueIds(loaded) && Synced(env, g, loaded, invalid, g')
  }

  ghost predicate IsRun(gs: seq<Gate>, ss: seq<Step>) {
    && |gs| == |ss| + 1
    && gs[0] == Gate(map[], map[])
    && forall i | 0 <= i < |ss| :: Follows(gs[i], ss[i], gs[i + 1])
  }

  /** The source a manifest is bound to stands exactly as the manifest was approved against. */
  predicate Bound(sources: map<string, SourceState>, m: Manifest) {
    m.source.Some? ==>
      var ref := m.source.value;
      && ref.sourceId in sources
      && var s := sources[ref.sourceId];
        && s.programId == m.programId && s.platform == ref.platform && s.remoteIdentifier == ref.remoteIdentifier
        && s.status.Approved? && s.revision == Some(ref.revisionHash)
  }

  predicate Safe(g: Gate) {
    forall id <- g.programs ::
      var p := g.programs[id];
      && p.manifest.programId == id
      && (p.active ==>
            p.manifestHash == p.approvedHash == p.manifest.approvedHash && Bound(g.sources, p.manifest))
  }

  lemma SourceSyncKeepsSafe(g: Gate, c: SourceConfig, f: Fetch, now: int, maxStale: nat)
    requires Safe(g)
    ensures Safe(AfterSourceSync(g, c, f, now, maxStale))
  {
  }

  lemma ProgramSyncKeepsSafe(env: Settings, g: Gate, loaded: seq<LoadedManifest>, invalid: seq<InvalidManifest>,
          g': Gate)
    requires Safe(g) && Synced(env, g, loaded, invalid, g')
    ensures Safe(g')
  {
    forall id | id in g'.programs
      ensures g'.programs[id].manifest.programId == id
      ensures g'.programs[id].active ==>
        var p := g'.programs[id];
        p.manifestHash == p.approvedHash && p.manifest.approvedHash == p.approvedHash && Bound(g'.sources, p.manifest)
    {
      LoadedForCorrect(loaded, id);
      var p := g'.programs[id];
      if p.active && p.manifest.source.Some? {
        assert ActivatesSource(env, g.sources, LoadedFor(loaded, id).value, p.manifest.source.value.sourceId);
      }
    }
  }

  /**
    In every reachable state an active program has matching hashes and, if it is bound to a source,
    that source is its own, approved, and at exactly the revision the manifest names.
  */
  lemma {:induction false} EveryRunIsSafe(gs: seq<Gate>, ss: seq<Step>, n: nat)
    requires IsRun(gs, ss) && n <= |ss|
    ensures Safe(gs[n])
  {
    if n > 0 {
      EveryRunIsSafe(gs, ss, n - 1);
      assert Follows(gs[n - 1], ss[n - 1], gs[n]);
      match ss[n - 1]
      case SourceSync(c, f, now, maxStale) => SourceSyncKeepsSafe(gs[n - 1], c, f, now, maxStale);
      case ProgramSync(env, loaded, invalid) => ProgramSyncKeepsSafe(env, gs[n - 1], loaded, invalid, gs[n]);
    }
  }

  /** No two active programs share a source. */
  lemma ActiveProgramsOwnTheirSources(gs: seq<Gate>, ss: seq<Step>, n: nat, a: string, b: string)
    requires IsRun(gs, ss) && n <= |ss|
    requires a in gs[n].programs && b in gs[n].programs && gs[n].programs[a].active && gs[n].programs[b].active
    requires var x, y := gs[n].programs[a].manifest.source, gs[n].programs[b].manifest.source;
      x.Some? && y.Some? && x.value.sourceId == y.value.sourceId
    ensures a == b
  {
    EveryRunIsSafe(gs, ss, n);
  }

  // ---------------------------------------------------------------- the error latch

  predicate Latched(g: Gate, sourceId: string) {
    sourceId in g.sources && (g.sources[sourceId].status.AuthError? || g.sources[sourceId].status.Error?)
  }

  /** A fetch of this very source that succeeded and also produced a candidate. */
  predicate GoodFetch(g: Gate, s: Step, sourceId: string) {
    && s.SourceSync? && s.config.sourceId == sourceId && SameIdentity(StateOf(g, s.config), s.config)
    && s.fetch.Snapshot? && s.fetch.candidate.Ok?
  }

  lemma LatchOpensOnlyByGoodFetch(g: Gate, s: Step, g': Gate, sourceId: string)
    requires Latched(g, sourceId) && Follows(g, s, g')
    ensures !Latched(g', sourceId) <==> GoodFetch(g, s, sourceId)
  {
  }

  /** Between two good fetches an error status persists, and no program bound to the source is active. */
  lemma {:induction false} LatchHolds(gs: seq<Gate>, ss: seq<Step>, i: nat, k: nat, sourceId: string)
    requires IsRun(gs, ss) && i <= k <= |ss| && Latched(gs[i], sourceId)
    requires forall m | i <= m < k :: !GoodFetch(gs[m], ss[m], sourceId)
    ensures Latched(gs[k], sourceId)
    ensures forall id <- gs[k].programs ::
      gs[k].programs[id].manifest.source.Some? && gs[k].programs[id].manifest.source.value.sourceId == sourceId
      ==> !gs[k].programs[id].active
    decreases k
  {
    if i < k {
      LatchHolds(gs, ss, i, k - 1, sourceId);
      assert Follows(gs[k - 1], ss[k - 1], gs[k]);
      LatchOpensOnlyByGoodFetch(gs[k - 1], ss[k - 1], gs[k], sourceId);
    }
    EveryRunIsSafe(gs, ss, k);
  }

  // ---------------------------------------------------------------- sync_programs

  /** The active set after a sync: loaded, approved, past the platform gate, and declared by no broken file. */
  lemma ActiveSetIsExact(env: Settings, g: Gate, loaded: seq<LoadedManifest>, invalid: seq<InvalidManifest>, g': Gate,
          id: string)
    requires Synced(env, g, loaded, invalid, g')
    ensures (id in g'.programs && g'.programs[id].active) <==>
      && LoadedFor(loaded, id).Some?
      && Passes(env, g.sources, LoadedFor(loaded, id).value)
      && (forall broken <- invalid :: broken.programId != Some(id))
  {
    InvalidForCorrect(invalid, id);
  }

  lemma {:induction false} InvalidForCorrect(invalid: seq<InvalidManifest>, id: string)
    ensures InvalidFor(invalid, id).None? <==> forall broken <- invalid :: broken.programId != Some(id)
  {
    if invalid != [] {
      InvalidForCorrect(invalid[..|invalid| - 1], id);
      assert invalid == invalid[..|invalid| - 1] + [invalid[|invalid| - 1]];
    }
  }

  ghost predicate SameFiles(a: seq<LoadedManifest>, b: seq<LoadedManifest>) {
    UniqueIds(a) && UniqueIds(b) && forall e :: e in a <==> e in b
  }

  lemma SourcesIgnoreOrder(env: Settings, sources: map<string, SourceState>, a: seq<LoadedManifest>,
          b: seq<LoadedManifest>, id: string)
    requires SameFiles(a, b) && id in sources
    ensures SourceAfter(env, sources, a, id) == SourceAfter(env, sources, b, id)
  {
  }

  lemma ProgramsIgnoreOrder(env: Settings, g: Gate, a: seq<LoadedManifest>, b: seq<LoadedManifest>,
          x: seq<InvalidManifest>, y: seq<InvalidManifest>, id: string)
    requires SameFiles(a, b) && (forall broken :: broken in x <==> broken in y)
    requires id in g.programs || LoadedFor(a, id).Some?
    ensures LoadedFor(b, id) == LoadedFor(a, id)
    ensures ProgramAfter(env, g, a, x, id).(pausedReason := None)
      == ProgramAfter(env, g, b, y, id).(pausedReason := None)
    ensures x == y ==> ProgramAfter(env, g, a, x, id) == ProgramAfter(env, g, b, y, id)
  {
    SameEntry(a, b, id);
    InvalidForCorrect(x, id);
    InvalidForCorrect(y, id);
  }

  /** The files may be visited in any order; only among broken files does the last one visited name the reason. */
  lemma OrderDoesNotMatter(env: Settings, g: Gate, a: seq<LoadedManifest>, b: seq<LoadedManifest>,
          x: seq<InvalidManifest>, y: seq<InvalidManifest>, ga: Gate, gb: Gate)
    requires SameFiles(a, b) && (forall broken :: broken in x <==> broken in y)
    requires Synced(env, g, a, x, ga) && Synced(env, g, b, y, gb)
    ensures ga.sources == gb.sources && ga.programs.Keys == gb.programs.Keys
    ensures forall id <- ga.programs :: ga.programs[id].(pausedReason := None) == gb.programs[id].(pausedReason := None)
    ensures x == y ==> ga == gb
  {
    forall id ensures id in ga.programs <==> id in gb.programs {
      SameEntry(a, b, id);
    }
    forall id | id in ga.programs
      ensures ga.programs[id].(pausedReason := None) == gb.programs[id].(pausedReason := None)
      ensures x == y ==> ga.programs[id] == gb.programs[id]
    {
      ProgramsIgnoreOrder(env, g, a, b, x, y, id);
    }
    forall id | id in ga.sources ensures ga.sources[id] == gb.sources[id] {
      SourcesIgnoreOrder(env, g.sources, a, b, id);
    }
  }

  lemma SameEntry(a: seq<LoadedManifest>, b: seq<LoadedManifest>, id: string)
    requires SameFiles(a, b)
    ensures LoadedFor(a, id) == LoadedFor(b, id)
  {
    LoadedForCorrect(a, id);
    LoadedForCorrect(b, id);
    if LoadedFor(a, id).Some? {
      LoadedForUnique(b, LoadedFor(a, id).value);
    }
  }

  /** Synchronizing again at the same clock with the same files changes nothing. */
  lemma SyncIsIdempotent(env: Settings, g: Gate, loaded: seq<LoadedManifest>, invalid: seq<InvalidManifest>, g1: Gate,
          g2: Gate)
    requires UniqueIds(loaded)
    requires Synced(env, g, loaded, invalid, g1) && Synced(env, g1, loaded, invalid, g2)
    ensures g1 == g2
  {
    forall id | id in g1.programs ensures id in g2.programs && g2.programs[id] == g1.programs[id] {
      ProgramIsSettled(env, g, loaded, invalid, g1, id);
    }
    assert g2.programs.Keys == g1.programs.Keys;
    forall id | id in g1.sources ensures g2.sources[id] == g1.sources[id] {
      SourceIsSettled(env, g, loaded, invalid, g1, id);
    }
  }

  lemma ProgramIsSettled(env: Settings, g: Gate, loaded: seq<LoadedManifest>, invalid: seq<InvalidManifest>, g1: Gate,
          id: string)
    requires UniqueIds(loaded) && Synced(env, g, loaded, invalid, g1) && id in g1.programs
    ensures ProgramAfter(env, g1, loaded, invalid, id) == g1.programs[id]
  {
    LoadedForCorrect(loaded, id);
    if LoadedFor(loaded, id).Some? {
      GateAnswersTheSameAfterSync(env, g, loaded, invalid, g1, LoadedFor(loaded, id).value);
    }
  }

  lemma SourceIsSettled(env: Settings, g: Gate, loaded: seq<LoadedManifest>, invalid: seq<InvalidManifest>, g1: Gate,
          id: string)
    requires UniqueIds(loaded) && Synced(env, g, loaded, invalid, g1) && id in g1.sources
    ensures SourceAfter(env, g1.sources, loaded, id) == g1.sources[id]
  {
    forall e | e in loaded ensures ActivatesSource(env, g1.sources, e, id) <==> ActivatesSource(env, g.sources, e, id) {
      GateAnswersTheSameAfterSync(env, g, loaded, invalid, g1, e);
    }
  }

  lemma GateAnswersTheSameAfterSync(env: Settings, g: Gate, loaded: seq<LoadedManifest>, invalid: seq<InvalidManifest>,
          g': Gate, e: LoadedManifest)
    requires UniqueIds(loaded) && e in loaded && Synced(env, g, loaded, invalid, g')
    ensures GateReason(env, g'.sources, e.manifest) == GateReason(env, g.sources, e.manifest)
  {
  }

  // ---------------------------------------------------------------- the worker's preflight

  datatype Unavailable = UnknownProgram | ProgramPaused(reason: Option<Reason>) | HashMismatch

  function RequireActive(programs: map<string, Program>, id: string): Result<Manifest, Unavailable> {
    if id !in programs then Err(UnknownProgram)
    else if !programs[id].active then Err(ProgramPaused(programs[id].pausedReason))
    else if programs[id].manifestHash != programs[id].approvedHash then Err(HashMismatch)
    else Ok(programs[id].manifest)
  }

  /**
    A job that gets past sync_programs and require_active_program runs on the manifest that is on
    disk now, approved under its own hash, with its source fetched inside the stale window and at
    the approved revision. The hash test of require_active_program never fires on its own.
  */
  lemma PreflightIsFresh(gs: seq<Gate>, ss: seq<Step>, n: nat, id: string)
    requires IsRun(gs, ss) && n < |ss| && ss[n].ProgramSync?
    ensures var r := RequireActive(gs[n + 1].programs, id);
      && r != Err(HashMismatch)
      && (r.Ok? ==>
            var e := LoadedFor(ss[n].loaded, id);
            && e.Some? && r.value == e.value.manifest && e.value.Approved()
            && (forall broken <- ss[n].invalid :: broken.programId != Some(id))
            && Bound(gs[n + 1].sources, r.value)
            && (r.value.source.Some? ==>
                  var s := gs[n + 1].sources[r.value.source.value.sourceId];
                  s.lastSuccess.Some? && s.lastSuccess.value >= ss[n].env.now - ss[n].env.maxStale))
  {
    EveryRunIsSafe(gs, ss, n + 1);
    assert Follows(gs[n], ss[n], gs[n + 1]);
    ActiveSetIsExact(ss[n].env, gs[n], ss[n].loaded, ss[n].invalid, gs[n + 1], id);
  }

  // ---------------------------------------------------------------- what "approved" on a source does not mean

  /** A good fetch marks the source approved exactly when the stored manifest names the revision, approved or not. */
  lemma ApprovedStatusMeansNamedRevision(g: Gate, c: SourceConfig, revision: string, candidate: string, now: int,
          maxStale: nat)
    requires SameIdentity(StateOf(g, c), c)
    ensures var g' := AfterSourceSync(g, c, Snapshot(revision, Ok(candidate)), now, maxStale);
      && c.sourceId in g'.sources
      && (g'.sources[c.sourceId].status.Approved? <==>
            && c.programId in g.programs && g.programs[c.programId].manifest.source.Some?
            && g.programs[c.programId].manifest.source.value.revisionHash == revision)
  {
  }

  predicate ApprovedAt(g: Gate, sourceId: string) {
    sourceId in g.sources && g.sources[sourceId].status.Approved?
  }

  /** A fetch that succeeds, builds a candidate and finds the revision named by the stored manifest. */
  predicate GrantsByFetch(g: Gate, s: Step, sourceId: string) {
    GoodFetch(g, s, sourceId) && BoundRevision(g, s.config.programId) == Some(s.fetch.revision)
  }

  /** A program sync that activates a manifest bound to the source. */
  ghost predicate GrantsByActivation(g: Gate, s: Step, sourceId: string) {
    s.ProgramSync? && exists e <- s.loaded :: ActivatesSource(s.env, g.sources, e, sourceId)
  }

  ghost predicate Grants(g: Gate, s: Step, sourceId: string) {
    GrantsByFetch(g, s, sourceId) || GrantsByActivation(g, s, sourceId)
  }

  /** A sync of the source that finds another revision, builds no candidate, is refused, or fails for too long. */
  predicate Withdraws(g: Gate, s: Step, sourceId: string) {
    && s.SourceSync? && s.config.sourceId == sourceId && SameIdentity(StateOf(g, s.config), s.config)
    && if s.fetch.Snapshot?
       then s.fetch.candidate.Err? || BoundRevision(g, s.config.programId) != Some(s.fetch.revision)
       else IsAuthFailure(s.config, s.fetch) || SourceIsStale(StateOf(g, s.config), s.now, s.maxStale)
  }

  lemma ApprovalStep(g: Gate, s: Step, g': Gate, sourceId: string)
    requires Follows(g, s, g')
    ensures ApprovedAt(g', sourceId) <==>
      Grants(g, s, sourceId) || (ApprovedAt(g, sourceId) && !Withdraws(g, s, sourceId))
  {
    if s.ProgramSync? && sourceId in g'.sources {
      assert g'.sources[sourceId] == SourceAfter(s.env, g.sources, s.loaded, sourceId);
    }
  }

  /** The last step before n that granted the approval, with no withdrawal since. */
  ghost predicate LastGrant(gs: seq<Gate>, ss: seq<Step>, n: nat, sourceId: string, i: nat)
    requires n <= |ss| < |gs|
  {
    && i < n && Grants(gs[i], ss[i], sourceId)
    && forall m | i < m < n :: !Withdraws(gs[m], ss[m], sourceId) && !Grants(gs[m], ss[m], sourceId)
  }

  lemma {:induction false} ApprovedSourceHasLastGrant(gs: seq<Gate>, ss: seq<Step>, n: nat, sourceId: string)
    returns (i: nat)
    requires IsRun(gs, ss) && n <= |ss| && ApprovedAt(gs[n], sourceId)
    ensures LastGrant(gs, ss, n, sourceId, i)
  {
    assert n > 0;
    assert Follows(gs[n - 1], ss[n - 1], gs[n]);
    ApprovalStep(gs[n - 1], ss[n - 1], gs[n], sourceId);
    if Grants(gs[n - 1], ss[n - 1], sourceId) {
      i := n - 1;
    } else {
      i := ApprovedSourceHasLastGrant(gs, ss, n - 1, sourceId);
    }
  }

  lemma {:induction false} GrantStands(gs: seq<Gate>, ss: seq<Step>, i: nat, n: nat, sourceId: string)
    requires IsRun(gs, ss) && i < n <= |ss| && Grants(gs[i], ss[i], sourceId)
    requires forall m | i < m < n :: !Withdraws(gs[m], ss[m], sourceId)
    ensures ApprovedAt(gs[n], sourceId)
    decreases n
  {
    assert Follows(gs[n - 1], ss[n - 1], gs[n]);
    ApprovalStep(gs[n - 1], ss[n - 1], gs[n], sourceId);
    if i < n - 1 {
      GrantStands(gs, ss, i, n - 1, sourceId);
    }
  }

  /** In every run a source is approved exactly when some step granted it and no later sync withdrew it. */
  lemma ApprovedExactlyWhenGranted(gs: seq<Gate>, ss: seq<Step>, n: nat, sourceId: string)
    requires IsRun(gs, ss) && n <= |ss|
    ensures ApprovedAt(gs[n], sourceId) <==>
      exists i | 0 <= i < n ::
        Grants(gs[i], ss[i], sourceId) && forall m | i < m < n :: !Withdraws(gs[m], ss[m], sourceId)
  {
    if ApprovedAt(gs[n], sourceId) {
      var i := ApprovedSourceHasLastGrant(gs, ss, n, sourceId);
    }
    if i: nat :| i < n && Grants(gs[i], ss[i], sourceId) && forall m | i < m < n :: !Withdraws(gs[m], ss[m], sourceId) {
      GrantStands(gs, ss, i, n, sourceId);
    }
  }

  /** The manifest that a granting step relied on carries the hash that a person approved. */
  ghost predicate GrantedByPerson(g: Gate, s: Step, sourceId: string) {
    || (s.ProgramSync? && exists e <- s.loaded :: ActivatesSource(s.env, g.sources, e, sourceId) && e.Approved())
    || (s.SourceSync? && s.config.programId in g.programs
        && g.programs[s.config.programId].manifestHash == g.programs[s.config.programId].approvedHash)
  }

  /**
    So an approved source lacks a person's approval exactly when the last grant was a fetch that found
    its revision in a stored manifest whose hash is not approved; an activation always has one.
  */
  lemma ApprovedWithoutPersonExactlyWhen(gs: seq<Gate>, ss: seq<Step>, n: nat, sourceId: string)
    requires IsRun(gs, ss) && n <= |ss| && ApprovedAt(gs[n], sourceId)
    ensures (forall i: nat | LastGrant(gs, ss, n, sourceId, i) :: !GrantedByPerson(gs[i], ss[i], sourceId)) <==>
      exists i: nat ::
        && LastGrant(gs, ss, n, sourceId, i) && GrantsByFetch(gs[i], ss[i], sourceId)
        && var row := gs[i].programs[ss[i].config.programId];
           row.manifestHash != row.approvedHash
  {
    var i := ApprovedSourceHasLastGrant(gs, ss, n, sourceId);
    forall k: nat | LastGrant(gs, ss, n, sourceId, k) ensures k == i {
      assert !(i < k) && !(k < i);
    }
  }

  /**
    So a source can be approved while no human approved its program: an unapproved manifest is stored
    by a sync, and the next fetch finds the revision it names.
  */
  lemma ApprovedStatusIsNotHumanApproval(c: SourceConfig, m: Manifest, computedHash: string, revision: string,
          candidate: string, env: Settings)
    requires m.source == Some(SourceRef(c.sourceId, c.platform, c.remoteIdentifier, revision))
    requires m.programId == c.programId
    requires m.approvedHash != computedHash
    ensures var e := LoadedManifest(m, computedHash, true);
      exists gs: seq<Gate> ::
        && IsRun(gs, [ProgramSync(env, [e], []),
                      SourceSync(c, Snapshot(revision, Ok(candidate)), env.now, env.maxStale)])
        && c.sourceId in gs[2].sources && gs[2].sources[c.sourceId].status.Approved?
        && c.programId in gs[2].programs
        && gs[2].programs[c.programId].manifestHash != gs[2].programs[c.programId].approvedHash
  {
    var e := LoadedManifest(m, computedHash, true);
    var ss := [ProgramSync(env, [e], []), SourceSync(c, Snapshot(revision, Ok(candidate)), env.now, env.maxStale)];
    var g0 := Gate(map[], map[]);
    var g1 := Gate(map[c.programId := SyncedProgram(env, map[], e)], map[]);
    FirstSync(env, e);
    var g2 := AfterSourceSync(g1, c, ss[1].fetch, env.now, env.maxStale);
    var gs := [g0, g1, g2];
    assert Follows(gs[0], ss[0], gs[1]) && Follows(gs[1], ss[1], gs[2]);
    assert IsRun(gs, ss);
    assert gs[2] == g2;
  }

  lemma FirstSync(env: Settings, e: LoadedManifest)
    ensures UniqueIds([e])
    ensures Synced(env, Gate(map[], map[]), [e], [],
                   Gate(map[e.manifest.programId := SyncedProgram(env, map[], e)], map[]))
  {
  }
}
