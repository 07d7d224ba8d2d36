/**
  The approval gate: the programs and platform-source tables and the two functions that write them,
  sync_platform_source (bbpipeline/platform_sync.py) and sync_programs (bbpipeline/programs.py).
  Instants and durations are integers in one unit.
*/
module ApprovalGate {
  import opened Common

  // ---------------------------------------------------------------- rows and inputs

  datatype SourceRef = SourceRef(sourceId: string, platform: string, remoteIdentifier: string, revisionHash: string)

  /** A validated manifest; content stands for everything the gate only copies. */
  datatype Manifest = Manifest(programId: string, source: Option<SourceRef>, approvedHash: string, content: string)

  datatype Reason =
    | NeverSynchronized | AssignedElsewhere | IdentityMismatch | CredentialRejected | NoSafeCandidate
    | Stale | ChangePending | NotConfigured | Misconfigured | NotBound
    | PolicySnapshotInvalid | HashNotApproved | ManifestInvalid(error: string) | ManifestAbsent
    | FailedBeforeFresh | CandidateFailed

  datatype Program = Program(
    manifestHash: string, approvedHash: string, active: bool, pausedReason: Option<Reason>, manifest: Manifest)

  datatype SourceStatus = Pending | Approved | AuthError | Error

  datatype SourceState = SourceState(
    programId: string, platform: string, remoteIdentifier: string,
    status: SourceStatus, revision: Option<string>, candidate: Option<string>,
    lastChecked: Option<int>, lastSuccess: Option<int>, changedAt: Option<int>, lastError: Option<string>)

  datatype SourceConfig = SourceConfig(
    sourceId: string, programId: string, platform: string, remoteIdentifier: string, enabled: bool)

  /** What a fetch came to; a snapshot carries the candidate built from it, or why none could be built. */
  datatype Fetch =
    | Snapshot(revision: string, candidate: Result<string, string>)
    | AuthFailure(error: string)
    | DataFailure(error: string)
    | OtherFailure(error: string)

  /** A manifest file that loaded. */
  datatype LoadedManifest = LoadedManifest(manifest: Manifest, computedHash: string, policySnapshotValid: bool) {
    predicate Approved() {
      manifest.approvedHash == computedHash && policySnapshotValid
    }
  }

  /** A manifest file that did not, with the program id it declares if that can be read. */
  datatype InvalidManifest = InvalidManifest(programId: Option<string>, error: string)

  datatype Gate = Gate(programs: map<string, Program>, sources: map<string, SourceState>)

  // ---------------------------------------------------------------- reading the tables

  predicate SourceIsStale(s: SourceState, now: int, maxStale: nat) {
    s.lastSuccess.None? || s.lastSuccess.value < now - maxStale
  }

  function SourcePauseReason(sources: map<string, SourceState>, m: Manifest, now: int, maxStale: nat): Option<Reason> {
    if m.source.None? then None
    else
      var ref := m.source.value;
      if ref.sourceId !in sources then Some(NeverSynchronized)
      else
        var s := sources[ref.sourceId];
        if s.programId != m.programId then Some(AssignedElsewhere)
        else if s.platform != ref.platform || s.remoteIdentifier != ref.remoteIdentifier then Some(IdentityMismatch)
        else if s.status.AuthError? then Some(CredentialRejected)
        else if s.status.Error? then Some(NoSafeCandidate)
        else if SourceIsStale(s, now, maxStale) then Some(Stale)
        else if s.revision != Some(ref.revisionHash) then Some(ChangePending)
        else None
  }

  function ConfigOfSource(configs: seq<SourceConfig>, sourceId: string): Option<SourceConfig> {
    if configs == [] then None
    else if configs[|configs| - 1].sourceId == sourceId then Some(configs[|configs| - 1])
    else ConfigOfSource(configs[..|configs| - 1], sourceId)
  }

  function ConfigOfProgram(configs: seq<SourceConfig>, programId: string): Option<SourceConfig> {
    if configs == [] then None
    else if configs[|configs| - 1].programId == programId then Some(configs[|configs| - 1])
    else ConfigOfProgram(configs[..|configs| - 1], programId)
  }

  /** The clock, the staleness limit and the source configurations a sync works with. */
  datatype Settings = Settings(configs: seq<SourceConfig>, now: int, maxStale: nat)

  /** Why the platform gate holds a manifest back; None when it passes. */
  function GateReason(env: Settings, sources: map<string, SourceState>, m: Manifest): Option<Reason> {
    var enrolled := ConfigOfProgram(env.configs, m.programId);
    if m.source.Some? then
      var ref := m.source.value;
      var configured := ConfigOfSource(env.configs, ref.sourceId);
      if configured.None? || !configured.value.enabled then Some(NotConfigured)
      else if configured.value.programId != m.programId || configured.value.platform != ref.platform
              || configured.value.remoteIdentifier != ref.remoteIdentifier then Some(Misconfigured)
      else SourcePauseReason(sources, m, env.now, env.maxStale)
    else if enrolled.Some? && enrolled.value.enabled then Some(NotBound)
    else None
  }

  predicate Passes(env: Settings, sources: map<string, SourceState>, e: LoadedManifest) {
    e.Approved() && GateReason(env, sources, e.manifest).None?
  }

  // ---------------------------------------------------------------- sync_platform_source

  function StateOf(g: Gate, c: SourceConfig): SourceState {
    if c.sourceId in g.sources then g.sources[c.sourceId]
    else SourceState(c.programId, c.platform, c.remoteIdentifier, Pending, None, None, None, None, None, None)
  }

  predicate SameIdentity(s: SourceState, c: SourceConfig) {
    s.programId == c.programId && s.platform == c.platform && s.remoteIdentifier == c.remoteIdentifier
  }

  /** The revision the stored manifest of the program was approved against. */
  function BoundRevision(g: Gate, programId: string): Option<string> {
    if programId in g.programs && g.programs[programId].manifest.source.Some?
    then Some(g.programs[programId].manifest.source.value.revisionHash)
    else None
  }

  predicate IsAuthFailure(c: SourceConfig, f: Fetch) {
    f.AuthFailure? || (c.platform == "bugcrowd" && f.DataFailure?)
  }

  /** The status a fetch leads to, and the reason to pause the program when it leads to anything but keeping on. */
  function Verdict(g: Gate, c: SourceConfig, f: Fetch, now: int, maxStale: nat): (SourceStatus, Option<Reason>) {
    match f
    case Snapshot(_, Err(_)) => (Error, Some(CandidateFailed))
    case Snapshot(revision, Ok(_)) =>
      if BoundRevision(g, c.programId) == Some(revision) then (Approved, None) else (Pending, Some(ChangePending))
    case _ =>
      if IsAuthFailure(c, f) then (AuthError, Some(CredentialRejected))
      else if SourceIsStale(StateOf(g, c), now, maxStale) then (Error, Some(FailedBeforeFresh))
      else (StateOf(g, c).status, None)
  }

  function Paused(programs: map<string, Program>, programId: string, reason: Option<Reason>): map<string, Program> {
    if programId in programs && reason.Some?
    then programs[programId := programs[programId].(active := false, pausedReason := reason)]
    else programs
  }

  function StateAfter(g: Gate, c: SourceConfig, f: Fetch, now: int, maxStale: nat): SourceState {
    var s := StateOf(g, c).(lastChecked := Some(now), status := Verdict(g, c, f, now, maxStale).0);
    match f
    case Snapshot(revision, candidate) =>
      s.(revision := Some(revision), lastSuccess := Some(now),
         candidate := if candidate.Ok? then Some(candidate.value) else None,
         changedAt := if s.revision != Some(revision) then Some(now) else s.changedAt,
         lastError := if candidate.Err? then Some(candidate.error) else None)
    case AuthFailure(error) => s.(lastError := Some(error))
    case DataFailure(error) => s.(lastError := Some(error))
    case OtherFailure(error) => s.(lastError := Some(error))
  }

  function AfterSourceSync(g: Gate, c: SourceConfig, f: Fetch, now: int, maxStale: nat): Gate {
    if SameIdentity(StateOf(g, c), c)
    then Gate(Paused(g.programs, c.programId, Verdict(g, c, f, now, maxStale).1),
              g.sources[c.sourceId := StateAfter(g, c, f, now, maxStale)])
    else g
  }

  // ---------------------------------------------------------------- sync_programs

  ghost predicate UniqueIds(loaded: seq<LoadedManifest>) {
    forall i, j | 0 <= i < j < |loaded| :: loaded[i].manifest.programId != loaded[j].manifest.programId
  }

  function LoadedFor(loaded: seq<LoadedManifest>, id: string): Option<LoadedManifest> {
    if loaded == [] then None
    else if loaded[|loaded| - 1].manifest.programId == id then Some(loaded[|loaded| - 1])
    else LoadedFor(loaded[..|loaded| - 1], id)
  }

  function InvalidFor(invalid: seq<InvalidManifest>, id: string): Option<string> {
    if invalid == [] then None
    else if invalid[|invalid| - 1].programId == Some(id) then Some(invalid[|invalid| - 1].error)
    else InvalidFor(invalid[..|invalid| - 1], id)
  }

  function SyncedProgram(env: Settings, sources: map<string, SourceState>, e: LoadedManifest): Program {
    var reason := GateReason(env, sources, e.manifest);
    Program(e.computedHash, e.manifest.approvedHash, Passes(env, sources, e),
            if Passes(env, sources, e) then None
            else if reason.Some? then reason
            else if !e.policySnapshotValid then Some(PolicySnapshotInvalid)
            else Some(HashNotApproved),
            e.manifest)
  }

  ghost predicate ActivatesSource(env: Settings, sources: map<string, SourceState>, e: LoadedManifest,
          sourceId: string) {
    Passes(env, sources, e) && e.manifest.source.Some? && e.manifest.source.value.sourceId == sourceId
  }

  /** The row of one program after the three loops. */
  ghost function ProgramAfter(env: Settings, g: Gate, loaded: seq<LoadedManifest>, invalid: seq<InvalidManifest>,
          id: string): Program
    requires id in g.programs || LoadedFor(loaded, id).Some?
  {
    var entry := LoadedFor(loaded, id);
    var row := if entry.Some? then SyncedProgram(env, g.sources, entry.value) else g.programs[id];
    var broken := InvalidFor(invalid, id);
    if broken.Some? then row.(active := false, pausedReason := Some(ManifestInvalid(broken.value)))
    else if entry.None? && row.active then row.(active := false, pausedReason := Some(ManifestAbsent))
    else row
  }

  /** The row of one source after the three loops. */
  ghost function SourceAfter(env: Settings, sources: map<string, SourceState>, loaded: seq<LoadedManifest>,
          id: string): SourceState
    requires id in sources
  {
    if exists e <- loaded :: ActivatesSource(env, sources, e, id) then sources[id].(status := Approved) else sources[id]
  }

  /** sync_programs, row by row: no row's outcome depends on the order the files are visited in. */
  ghost predicate Synced(env: Settings, g: Gate, loaded: seq<LoadedManifest>, invalid: seq<InvalidManifest>, g': Gate) {
    && (forall id :: id in g'.programs <==> id in g.programs || LoadedFor(loaded, id).Some?)
    && (forall id <- g'.programs :: g'.programs[id] == ProgramAfter(env, g, loaded, invalid, id))
    && SourcesAreAfter(env, g.sources, loaded, g'.sources)
  }

  // ---------------------------------------------------------------- the tables as updated in place

  datatype SyncError = SourceIdentityIsImmutable

  datatype SyncReport = SyncReport(changed: bool, status: SourceStatus, candidateReady: bool)

  class GateTables {
    var programs: map<string, Program>
    var sources: map<string, SourceState>

    constructor ()
      ensures programs == map[] && sources == map[]
    {
      programs, sources := map[], map[];
    }

    method PauseProgram(programId: string, reason: Reason)
      modifies this`programs
      ensures programs == Paused(old(programs), programId, Some(reason))
    {
      if programId !in programs {
        return;
      }
      programs := programs[programId := programs[programId].(active := false, pausedReason := Some(reason))];
    }

    method SyncPlatformSource(c: SourceConfig, f: Fetch, now: int, maxStale: nat)
      returns (r: Result<SyncReport, SyncError>)
      modifies this
      ensures Gate(programs, sources) == AfterSourceSync(old(Gate(programs, sources)), c, f, now, maxStale)
      ensures r.Err? <==>
        && c.sourceId in old(sources)
        && var s := old(sources)[c.sourceId];
           s.programId != c.programId || s.platform != c.platform || s.remoteIdentifier != c.remoteIdentifier
      ensures r.Err? ==> programs == old(programs) && sources == old(sources)
      ensures r.Ok? ==>
        && c.sourceId in sources
        && r.value.status == sources[c.sourceId].status
        && r.value.candidateReady == sources[c.sourceId].candidate.Some?
        && (r.value.changed <==>
              f.Snapshot? && (c.sourceId !in old(sources) || old(sources)[c.sourceId].revision != Some(f.revision)))
    {
      ghost var g := Gate(programs, sources);
      var state := StateOf(Gate(programs, sources), c);
      if !SameIdentity(state, c) {
        return Err(SourceIdentityIsImmutable);
      }
      state := state.(lastChecked := Some(now));
      if !f.Snapshot? {
        state := state.(lastError := Some(f.error));
        var authError := IsAuthFailure(c, f);
        if authError || SourceIsStale(state, now, maxStale) {
          state := state.(status := if authError then AuthError else Error);
          PauseProgram(c.programId, if authError then CredentialRejected else FailedBeforeFresh);
        }
        sources := sources[c.sourceId := state];
        return Ok(SyncReport(false, state.status, state.candidate.Some?));
      }
      var changed := state.revision != Some(f.revision);
      state := state.(revision := Some(f.revision), lastSuccess := Some(now), lastError := None);
      if changed {
        state := state.(changedAt := Some(now));
      }
      if f.candidate.Err? {
        state := state.(status := Error, candidate := None, lastError := Some(f.candidate.error));
        PauseProgram(c.programId, CandidateFailed);
        sources := sources[c.sourceId := state];
        return Ok(SyncReport(changed, state.status, false));
      }
      state := state.(candidate := Some(f.candidate.value));
      if BoundRevision(Gate(programs, sources), c.programId) == Some(f.revision) {
        state := state.(status := Approved);
      } else {
        state := state.(status := Pending);
        PauseProgram(c.programId, ChangePending);
      }
      sources := sources[c.sourceId := state];
      return Ok(SyncReport(changed, state.status, true));
    }

    /** The body of the first loop of sync_programs for one manifest file. */
    method SyncLoaded(env: Settings, e: LoadedManifest)
      modifies this
      ensures Gate(programs, sources) == LoadedStep(env, old(Gate(programs, sources)), e)
    {
      var m := e.manifest;
      var reason := GateReason(env, sources, m);
      var row := Program(e.computedHash, m.approvedHash, e.Approved() && reason.None?, None, m);
      if row.active {
        if m.source.Some? && m.source.value.sourceId in sources {
          var id := m.source.value.sourceId;
          sources := sources[id := sources[id].(status := Approved)];
        }
      } else if reason.Some? {
        row := row.(pausedReason := reason);
      } else if !e.policySnapshotValid {
        row := row.(pausedReason := Some(PolicySnapshotInvalid));
      } else {
        row := row.(pausedReason := Some(HashNotApproved));
      }
      programs := programs[m.programId := row];
    }

    method SyncPrograms(env: Settings, loaded: seq<LoadedManifest>, invalid: seq<InvalidManifest>)
      returns (synced: seq<string>)
      requires UniqueIds(loaded)
      modifies this
      ensures Synced(env, old(Gate(programs, sources)), loaded, invalid, Gate(programs, sources))
      ensures NoDuplicates(synced)
      ensures forall id :: id in synced <==>
        id in programs && (LoadedFor(loaded, id).Some? || InvalidFor(invalid, id).Some?)
    {
      ghost var g := Gate(programs, sources);
      var seen: set<string> := {};
      synced := [];
      for i := 0 to |loaded|
        invariant Gate(programs, sources) == LoadedFold(env, g, loaded[..i])
        invariant NoDuplicates(synced)
        invariant forall id :: id in synced <==> LoadedFor(loaded[..i], id).Some?
        invariant forall id :: id in seen <==> LoadedFor(loaded[..i], id).Some?
      {
        assert loaded[..i + 1][..i] == loaded[..i];
        LoadedForCorrect(loaded[..i], loaded[i].manifest.programId);
        SyncLoaded(env, loaded[i]);
        seen := seen + {loaded[i].manifest.programId};
        synced := synced + [loaded[i].manifest.programId];
      }
      assert loaded[..|loaded|] == loaded;
      LoadedFoldIsPointwise(env, g, loaded);
      ghost var g1 := Gate(programs, sources);
      synced, seen := PauseInvalid(invalid, synced, seen);
      programs := map id | id in programs ::
        if id !in seen && programs[id].active
        then programs[id].(active := false, pausedReason := Some(ManifestAbsent)) else programs[id];
      forall id | id in programs ensures programs[id] == ProgramAfter(env, g, loaded, invalid, id) {
        InvalidFoldIsPointwise(g1.programs, invalid, id);
      }
    }

    /** The second loop: a file that no longer loads pauses the program it declares. */
    method PauseInvalid(invalid: seq<InvalidManifest>, synced0: seq<string>, seen0: set<string>)
      returns (synced: seq<string>, seen: set<string>)
      requires NoDuplicates(synced0)
      modifies this`programs
      ensures programs == InvalidFold(old(programs), invalid) && programs.Keys == old(programs).Keys
      ensures NoDuplicates(synced)
      ensures forall id :: id in synced <==> id in synced0 || (id in programs && InvalidFor(invalid, id).Some?)
      ensures forall id :: id in seen <==> id in seen0 || InvalidFor(invalid, id).Some?
    {
      synced, seen := synced0, seen0;
      for i := 0 to |invalid|
        invariant programs == InvalidFold(old(programs), invalid[..i]) && programs.Keys == old(programs).Keys
        invariant NoDuplicates(synced)
        invariant forall id :: id in synced <==> id in synced0 || (id in programs && InvalidFor(invalid[..i], id).Some?)
        invariant forall id :: id in seen <==> id in seen0 || InvalidFor(invalid[..i], id).Some?
      {
        assert invalid[..i + 1][..i] == invalid[..i];
        var broken := invalid[i];
        if broken.programId.Some? {
          var id := broken.programId.value;
          seen := seen + {id};
          if id in programs {
            var reason := ManifestInvalid(broken.error);
            programs := programs[id := programs[id].(active := false, pausedReason := Some(reason))];
            if id !in synced {
              synced := synced + [id];
            }
          }
        }
      }
      assert invalid[..|invalid|] == invalid;
    }
  }

  function LoadedStep(env: Settings, g: Gate, e: LoadedManifest): Gate {
    var m := e.manifest;
    Gate(g.programs[m.programId := SyncedProgram(env, g.sources, e)],
         if Passes(env, g.sources, e) && m.source.Some? && m.source.value.sourceId in g.sources
         then g.sources[m.source.value.sourceId := g.sources[m.source.value.sourceId].(status := Approved)]
         else g.sources)
  }

  function LoadedFold(env: Settings, g: Gate, loaded: seq<LoadedManifest>): Gate {
    if loaded == [] then g
    else LoadedStep(env, LoadedFold(env, g, loaded[..|loaded| - 1]), loaded[|loaded| - 1])
  }

  function InvalidFold(programs: map<string, Program>, invalid: seq<InvalidManifest>): map<string, Program> {
    if invalid == [] then programs
    else
      var before := InvalidFold(programs, invalid[..|invalid| - 1]);
      var broken := invalid[|invalid| - 1];
      if broken.programId.None? then before
      else Paused(before, broken.programId.value, Some(ManifestInvalid(broken.error)))
  }

  lemma {:induction false} LoadedForCorrect(loaded: seq<LoadedManifest>, id: string)
    ensures LoadedFor(loaded, id).None? <==> forall e <- loaded :: e.manifest.programId != id
    ensures LoadedFor(loaded, id).Some? ==>
      LoadedFor(loaded, id).value in loaded && LoadedFor(loaded, id).value.manifest.programId == id
  {
    if loaded != [] {
      LoadedForCorrect(loaded[..|loaded| - 1], id);
      assert loaded == loaded[..|loaded| - 1] + [loaded[|loaded| - 1]];
    }
  }

  lemma {:induction false} LoadedForUnique(loaded: seq<LoadedManifest>, e: LoadedManifest)
    requires UniqueIds(loaded) && e in loaded
    ensures LoadedFor(loaded, e.manifest.programId) == Some(e)
  {
    var last := loaded[|loaded| - 1];
    assert loaded == loaded[..|loaded| - 1] + [last];
    if last.manifest.programId != e.manifest.programId {
      LoadedForUnique(loaded[..|loaded| - 1], e);
    } else {
      assert forall k | 0 <= k < |loaded| - 1 :: loaded[k].manifest.programId != last.manifest.programId;
    }
  }

  lemma {:induction false} InvalidFoldIsPointwise(programs: map<string, Program>, invalid: seq<InvalidManifest>,
          id: string)
    ensures InvalidFold(programs, invalid).Keys == programs.Keys
    ensures id in programs && InvalidFor(invalid, id).None? ==> InvalidFold(programs, invalid)[id] == programs[id]
    ensures id in programs && InvalidFor(invalid, id).Some? ==>
      var error := InvalidFor(invalid, id).value;
      InvalidFold(programs, invalid)[id] == programs[id].(active := false, pausedReason := Some(ManifestInvalid(error)))
  {
    if invalid != [] {
      InvalidFoldIsPointwise(programs, invalid[..|invalid| - 1], id);
    }
  }

  /** The gate's answer for one manifest ignores approvals granted to sources of other programs. */
  lemma GateReasonIgnoresOthers(env: Settings, a: map<string, SourceState>, b: map<string, SourceState>, m: Manifest)
    requires a.Keys == b.Keys
    requires forall id <- a :: b[id] == a[id] || (b[id] == a[id].(status := Approved) && a[id].programId != m.programId)
    ensures GateReason(env, a, m) == GateReason(env, b, m)
  {
  }

  ghost predicate SourcesAreAfter(env: Settings, sources: map<string, SourceState>, loaded: seq<LoadedManifest>,
          after: map<string, SourceState>) {
    after.Keys == sources.Keys && forall id <- after :: after[id] == SourceAfter(env, sources, loaded, id)
  }

  /** Visiting e after the files in init, the gate answers as it did before any file was visited. */
  lemma GateAnswersAsAtStart(env: Settings, sources: map<string, SourceState>, init: seq<LoadedManifest>,
          after: map<string, SourceState>, e: LoadedManifest)
    requires UniqueIds(init + [e]) && SourcesAreAfter(env, sources, init, after)
    ensures GateReason(env, after, e.manifest) == GateReason(env, sources, e.manifest)
  {
    forall id | id in sources && after[id] != sources[id]
      ensures after[id] == sources[id].(status := Approved) && sources[id].programId != e.manifest.programId
    {
      var d :| d in init && ActivatesSource(env, sources, d, id);
      var k :| 0 <= k < |init| && init[k] == d;
      assert (init + [e])[k] == d && (init + [e])[|init|] == e;
    }
    GateReasonIgnoresOthers(env, sources, after, e.manifest);
  }

  lemma SourcesAfterOneMore(env: Settings, sources: map<string, SourceState>, init: seq<LoadedManifest>,
          e: LoadedManifest, id: string)
    requires id in sources
    ensures SourceAfter(env, sources, init + [e], id) ==
      if ActivatesSource(env, sources, e, id) then sources[id].(status := Approved)
      else SourceAfter(env, sources, init, id)
  {
  }

  lemma {:induction false} LoadedFoldSources(env: Settings, g: Gate, loaded: seq<LoadedManifest>)
    requires UniqueIds(loaded)
    ensures SourcesAreAfter(env, g.sources, loaded, LoadedFold(env, g, loaded).sources)
  {
    if loaded != [] {
      var init, e := loaded[..|loaded| - 1], loaded[|loaded| - 1];
      LoadedFoldSources(env, g, init);
      var before := LoadedFold(env, g, init).sources;
      assert loaded == init + [e];
      GateAnswersAsAtStart(env, g.sources, init, before, e);
      forall id | id in g.sources
        ensures LoadedFold(env, g, loaded).sources[id] == SourceAfter(env, g.sources, loaded, id)
      {
        SourcesAfterOneMore(env, g.sources, init, e, id);
      }
    }
  }

  lemma {:induction false} LoadedFoldIsPointwise(env: Settings, g: Gate, loaded: seq<LoadedManifest>)
    requires UniqueIds(loaded)
    ensures var g' := LoadedFold(env, g, loaded);
      && (forall id :: id in g'.programs <==> id in g.programs || LoadedFor(loaded, id).Some?)
      && (forall id <- g'.programs :: g'.programs[id] ==
            if LoadedFor(loaded, id).Some? then SyncedProgram(env, g.sources, LoadedFor(loaded, id).value)
            else g.programs[id])
      && SourcesAreAfter(env, g.sources, loaded, g'.sources)
  {
    LoadedFoldSources(env, g, loaded);
    if loaded != [] {
      var init, e := loaded[..|loaded| - 1], loaded[|loaded| - 1];
      LoadedFoldIsPointwise(env, g, init);
      assert loaded == init + [e];
      GateAnswersAsAtStart(env, g.sources, init, LoadedFold(env, g, init).sources, e);
    }
  }
}
