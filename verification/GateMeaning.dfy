/** What the approval gate decides, told in the columns of its tables and the fields of its files. */
module GateMeaning {
  import opened Common
  import opened ApprovalGate
  import opened ConfigFiles
  import GateRuns

  // ---------------------------------------------------------------- sync_platform_source

  /** The row a sync of the source leaves, column by column. */
  lemma SourceRowAfterFetch(g: Gate, c: SourceConfig, f: Fetch, now: int, maxStale: nat)
    requires c.sourceId in g.sources ==>
      var s := g.sources[c.sourceId];
      s.programId == c.programId && s.platform == c.platform && s.remoteIdentifier == c.remoteIdentifier
    ensures
      var was := if c.sourceId in g.sources then Some(g.sources[c.sourceId]) else None;
      var sources := AfterSourceSync(g, c, f, now, maxStale).sources;
      && sources.Keys == g.sources.Keys + {c.sourceId}
      && (forall id <- g.sources | id != c.sourceId :: sources[id] == g.sources[id])
      && var row := sources[c.sourceId];
         && row.programId == c.programId && row.platform == c.platform && row.remoteIdentifier == c.remoteIdentifier
         && row.lastChecked == Some(now)
         && (f.Snapshot? ==>
               && row.revision == Some(f.revision) && row.lastSuccess == Some(now)
               && row.candidate == (if f.candidate.Ok? then Some(f.candidate.value) else None)
               && row.lastError == (if f.candidate.Err? then Some(f.candidate.error) else None)
               && (was.None? || was.value.revision != Some(f.revision) ==> row.changedAt == Some(now))
               && (was.Some? && was.value.revision == Some(f.revision) ==> row.changedAt == was.value.changedAt))
         && (!f.Snapshot? ==>
               && row.lastError == Some(f.error)
               && (was.Some? ==>
                     && row.revision == was.value.revision && row.lastSuccess == was.value.lastSuccess
                     && row.candidate == was.value.candidate && row.changedAt == was.value.changedAt)
               && (was.None? ==>
                     && row.revision.None? && row.lastSuccess.None?
                     && row.candidate.None? && row.changedAt.None?))
  {
  }

  /** The fetch was refused: the platform rejected the credential, or a cookie collector got data it cannot read. */
  predicate Rejected(c: SourceConfig, f: Fetch) {
    f.AuthFailure? || (f.DataFailure? && c.platform == "bugcrowd")
  }

  /** No fetch has succeeded within the stale window. */
  predicate OutOfWindow(sources: map<string, SourceState>, id: string, now: int, maxStale: nat) {
    id !in sources || sources[id].lastSuccess.None? || sources[id].lastSuccess.value < now - maxStale
  }

  /**
    The status a sync leaves and what it does to the program: approved exactly when a candidate was
    built and the stored manifest names the revision; auth_error exactly when the fetch was refused;
    error when no candidate could be built, or nothing has been fetched within the window; any other
    failure changes neither the status nor the program.
  */
  lemma StatusAfterFetch(g: Gate, c: SourceConfig, f: Fetch, now: int, maxStale: nat)
    requires c.sourceId in g.sources ==>
      var s := g.sources[c.sourceId];
      s.programId == c.programId && s.platform == c.platform && s.remoteIdentifier == c.remoteIdentifier
    ensures
      var g' := AfterSourceSync(g, c, f, now, maxStale);
      var status := g'.sources[c.sourceId].status;
      var named :=
        && c.programId in g.programs && g.programs[c.programId].manifest.source.Some?
        && f.Snapshot? && g.programs[c.programId].manifest.source.value.revisionHash == f.revision;
      var transient := !f.Snapshot? && !Rejected(c, f) && !OutOfWindow(g.sources, c.sourceId, now, maxStale);
      && (f.Snapshot? && f.candidate.Ok? && named ==> status.Approved? && g'.programs == g.programs)
      && (f.Snapshot? && f.candidate.Ok? && !named ==> status.Pending? && PausedOnly(g, g', c.programId, ChangePending))
      && (f.Snapshot? && f.candidate.Err? ==> status.Error? && PausedOnly(g, g', c.programId, CandidateFailed))
      && (Rejected(c, f) ==> status.AuthError? && PausedOnly(g, g', c.programId, CredentialRejected))
      && (!f.Snapshot? && !Rejected(c, f) && !transient ==>
            status.Error? && PausedOnly(g, g', c.programId, FailedBeforeFresh))
      && (transient ==> status == g.sources[c.sourceId].status && g'.programs == g.programs)
  {
  }

  /** The program, if there is one, is inactive for the reason; everything else about programs is as it was. */
  ghost predicate PausedOnly(g: Gate, g': Gate, id: string, reason: Reason) {
    && g'.programs.Keys == g.programs.Keys
    && (forall other <- g.programs | other != id :: g'.programs[other] == g.programs[other])
    && (id in g.programs ==>
          var was, row := g.programs[id], g'.programs[id];
          && !row.active && row.pausedReason == Some(reason)
          && row.manifestHash == was.manifestHash && row.approvedHash == was.approvedHash
          && row.manifest == was.manifest)
  }

  // ---------------------------------------------------------------- the platform gate

  lemma {:induction false} ConfigsFound(configs: seq<SourceConfig>, id: string)
    requires UniqueSources(configs)
    ensures forall c <- configs ::
      && (c.sourceId == id ==> ConfigOfSource(configs, id) == Some(c))
      && (c.programId == id ==> ConfigOfProgram(configs, id) == Some(c))
    ensures ConfigOfSource(configs, id).Some? ==>
      ConfigOfSource(configs, id).value in configs && ConfigOfSource(configs, id).value.sourceId == id
    ensures ConfigOfProgram(configs, id).Some? ==>
      ConfigOfProgram(configs, id).value in configs && ConfigOfProgram(configs, id).value.programId == id
  {
    if configs != [] {
      var init, last := configs[..|configs| - 1], configs[|configs| - 1];
      assert configs == init + [last];
      ConfigsFound(init, id);
    }
  }

  /** Some enabled configuration names the source, the program, the platform and the remote identifier alike. */
  ghost predicate ConfiguredAs(configs: seq<SourceConfig>, programId: string, ref: SourceRef) {
    exists c <- configs ::
      && c.enabled && c.sourceId == ref.sourceId && c.programId == programId
      && c.platform == ref.platform && c.remoteIdentifier == ref.remoteIdentifier
  }

  /** The source's row belongs to the program, is in no error, and was fetched in time at the bound revision. */
  ghost predicate StandsAs(sources: map<string, SourceState>, programId: string, ref: SourceRef,
          now: int, maxStale: nat) {
    && ref.sourceId in sources
    && var s := sources[ref.sourceId];
       && s.programId == programId && s.platform == ref.platform && s.remoteIdentifier == ref.remoteIdentifier
       && !s.status.AuthError? && !s.status.Error?
       && s.lastSuccess.Some? && s.lastSuccess.value >= now - maxStale
       && s.revision == Some(ref.revisionHash)
  }

  lemma GateOpensExactlyWhen(env: Settings, sources: map<string, SourceState>, m: Manifest)
    requires UniqueSources(env.configs)
    ensures GateReason(env, sources, m).None? <==>
      match m.source
      case None => forall c <- env.configs | c.programId == m.programId :: !c.enabled
      case Some(ref) =>
        && ConfiguredAs(env.configs, m.programId, ref)
        && StandsAs(sources, m.programId, ref, env.now, env.maxStale)
  {
    ConfigsFound(env.configs, m.programId);
    if m.source.Some? {
      ConfigsFound(env.configs, m.source.value.sourceId);
    }
  }

  /** The reason that holds a bound manifest back is the first of these that applies. */
  lemma FirstReasonThatApplies(env: Settings, sources: map<string, SourceState>, m: Manifest)
    requires UniqueSources(env.configs) && m.source.Some?
    ensures
      var ref, reason := m.source.value, GateReason(env, sources, m);
      && (reason == Some(NotConfigured) <==> forall c <- env.configs | c.sourceId == ref.sourceId :: !c.enabled)
      && (reason == Some(Misconfigured) <==>
            && (exists c <- env.configs :: c.sourceId == ref.sourceId && c.enabled)
            && !ConfiguredAs(env.configs, m.programId, ref))
      && (ConfiguredAs(env.configs, m.programId, ref) ==>
            && (reason == Some(NeverSynchronized) <==> ref.sourceId !in sources)
            && (ref.sourceId in sources ==>
                  var s := sources[ref.sourceId];
                  var other := s.programId != m.programId;
                  var renamed := s.platform != ref.platform || s.remoteIdentifier != ref.remoteIdentifier;
                  var late := s.lastSuccess.None? || s.lastSuccess.value < env.now - env.maxStale;
                  && (reason == Some(AssignedElsewhere) <==> other)
                  && (reason == Some(IdentityMismatch) <==> !other && renamed)
                  && (reason == Some(CredentialRejected) <==> !other && !renamed && s.status.AuthError?)
                  && (reason == Some(NoSafeCandidate) <==> !other && !renamed && s.status.Error?)
                  && (!other && !renamed && !s.status.AuthError? && !s.status.Error? ==>
                        && (reason == Some(Stale) <==> late)
                        && (reason == Some(ChangePending) <==> !late && s.revision != Some(ref.revisionHash)))))
  {
    ConfigsFound(env.configs, m.source.value.sourceId);
  }

  lemma UnboundReason(env: Settings, sources: map<string, SourceState>, m: Manifest)
    requires UniqueSources(env.configs) && m.source.None?
    ensures GateReason(env, sources, m) ==
      if exists c <- env.configs :: c.programId == m.programId && c.enabled then Some(NotBound) else None
  {
    ConfigsFound(env.configs, m.programId);
  }

  // ---------------------------------------------------------------- sync_programs

  /**
    A program is active after a sync exactly when a loaded file with an approved hash and a valid
    policy snapshot declares it, no broken file does, and the platform agrees: an unbound manifest has
    no enabled source enrolled for it, a bound one has its source configured, enabled, healthy, fetched
    within the window and at the very revision that was approved.
  */
  lemma ActiveExactlyWhen(env: Settings, g: Gate, loaded: seq<LoadedManifest>, invalid: seq<InvalidManifest>, g': Gate,
        id: string)
    requires UniqueIds(loaded) && UniqueSources(env.configs) && Synced(env, g, loaded, invalid, g')
    ensures (id in g'.programs && g'.programs[id].active) <==>
      && (exists e <- loaded ::
            && e.manifest.programId == id && e.manifest.approvedHash == e.computedHash && e.policySnapshotValid
            && match e.manifest.source
               case None => forall c <- env.configs | c.programId == id :: !c.enabled
               case Some(ref) =>
                 ConfiguredAs(env.configs, id, ref) && StandsAs(g.sources, id, ref, env.now, env.maxStale))
      && (forall broken <- invalid :: broken.programId != Some(id))
  {
    GateRuns.ActiveSetIsExact(env, g, loaded, invalid, g', id);
    LoadedForCorrect(loaded, id);
    forall e | e in loaded && e.manifest.programId == id ensures LoadedFor(loaded, id) == Some(e) {
      LoadedForUnique(loaded, e);
    }
    if LoadedFor(loaded, id).Some? {
      GateOpensExactlyWhen(env, g.sources, LoadedFor(loaded, id).value.manifest);
    }
  }

  /** The row of a program that a loaded file declares: the file's hashes and manifest, and why it is paused. */
  lemma LoadedRow(env: Settings, g: Gate, loaded: seq<LoadedManifest>, invalid: seq<InvalidManifest>, g': Gate,
        e: LoadedManifest)
    requires UniqueIds(loaded) && e in loaded && Synced(env, g, loaded, invalid, g')
    ensures
      var id := e.manifest.programId;
      && id in g'.programs
      && var row := g'.programs[id];
         && row.manifestHash == e.computedHash && row.approvedHash == e.manifest.approvedHash
         && row.manifest == e.manifest
         && ((forall broken <- invalid :: broken.programId != Some(id)) ==>
               var reason := GateReason(env, g.sources, e.manifest);
               && (row.active <==> row.pausedReason.None?)
               && (reason.Some? ==> row.pausedReason == reason)
               && (reason.None? ==>
                     && (row.pausedReason == Some(PolicySnapshotInvalid) <==> !e.policySnapshotValid)
                     && (row.pausedReason == Some(HashNotApproved) <==>
                           e.policySnapshotValid && e.manifest.approvedHash != e.computedHash)))
  {
    LoadedForUnique(loaded, e);
    GateRuns.InvalidForCorrect(invalid, e.manifest.programId);
  }

  /** A program that no loaded file declares keeps its row, but is paused if a broken file declares it or none does. */
  lemma UnloadedRow(env: Settings, g: Gate, loaded: seq<LoadedManifest>, invalid: seq<InvalidManifest>, g': Gate,
        id: string)
    requires Synced(env, g, loaded, invalid, g')
    requires id in g.programs && forall e <- loaded :: e.manifest.programId != id
    ensures id in g'.programs && !g'.programs[id].active
    ensures
      var was, row := g.programs[id], g'.programs[id];
      && row.manifestHash == was.manifestHash && row.approvedHash == was.approvedHash && row.manifest == was.manifest
      && ((forall broken <- invalid :: broken.programId != Some(id)) ==>
            row.pausedReason == if was.active then Some(ManifestAbsent) else was.pausedReason)
      && ((exists broken <- invalid :: broken.programId == Some(id)) ==>
            exists broken <- invalid ::
              broken.programId == Some(id) && row.pausedReason == Some(ManifestInvalid(broken.error)))
  {
    LoadedForCorrect(loaded, id);
    GateRuns.InvalidForCorrect(invalid, id);
    ErrorIsReported(invalid, id);
  }

  lemma {:induction false} ErrorIsReported(invalid: seq<InvalidManifest>, id: string)
    ensures InvalidFor(invalid, id).Some? ==>
      exists broken <- invalid :: broken.programId == Some(id) && InvalidFor(invalid, id) == Some(broken.error)
  {
    if invalid != [] {
      ErrorIsReported(invalid[..|invalid| - 1], id);
      assert forall broken <- invalid[..|invalid| - 1] :: broken in invalid;
    }
  }

  /** A sync of the programs touches no column of a source but its status, and that only to approve it. */
  lemma SourcesAfterSync(env: Settings, g: Gate, loaded: seq<LoadedManifest>, invalid: seq<InvalidManifest>, g': Gate,
        id: string)
    requires UniqueSources(env.configs) && Synced(env, g, loaded, invalid, g') && id in g.sources
    ensures id in g'.sources
    ensures g'.sources[id] == g.sources[id].(status := g'.sources[id].status)
    ensures g'.sources[id].status != g.sources[id].status ==>
      && g'.sources[id].status.Approved?
      && exists e <- loaded :: e.manifest.source.Some? && e.manifest.source.value.sourceId == id
           && e.manifest.approvedHash == e.computedHash && e.policySnapshotValid
           && StandsAs(g.sources, e.manifest.programId, e.manifest.source.value, env.now, env.maxStale)
  {
    assert g'.sources[id] == SourceAfter(env, g.sources, loaded, id);
    if g'.sources[id].status != g.sources[id].status {
      var e :| e in loaded && ActivatesSource(env, g.sources, e, id);
      GateOpensExactlyWhen(env, g.sources, e.manifest);
    }
  }
}
