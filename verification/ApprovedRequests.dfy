/**
  From the approval gate to the wire: what stands behind every request that a verification job sends
  (bbpipeline/workers.py).
*/
module ApprovedRequests {
  import opened Common
  import opened Scope
  import ApprovalGate
  import GateRuns
  import Plans
  import ScopeMeaning
  import Verifier

  /** The policy, identity and limits that a stored manifest's content spells out. */
  type Reading = ApprovalGate.Manifest -> Plans.Manifest

  /**
    A worker synchronizes the programs at step n, finds the program available, and verifies steps
    with its manifest. Then every request it sends was allowed, on addresses just resolved, by a
    manifest file on disk at that synchronization whose hash and policy snapshot a person approved,
    and whose source, if it has one, was at the approved revision and fetched within the stale window.
  */
  lemma EveryRequestWasApproved(gs: seq<ApprovalGate.Gate>, ss: seq<GateRuns.Step>, n: nat, programId: string,
          reading: Reading, x: Texts, u: Plans.Urls, steps: seq<Plans.TestStep>, ws: seq<Verifier.StepWorld>,
          sent: seq<Verifier.Request>, interval: real, k: nat)
    requires GateRuns.IsRun(gs, ss) && n < |ss| && ss[n].ProgramSync?
    requires GateRuns.RequireActive(gs[n + 1].programs, programId).Ok?
    requires Verifier.JoinReadsBack(x, u) && forall s <- steps :: Plans.ValidStep(u, s)
    requires
      var m := reading(GateRuns.RequireActive(gs[n + 1].programs, programId).value);
      Verifier.Journal(x, u, m, steps, ws, sent, interval) && k < |sent|
    ensures exists e <- ss[n].loaded ::
      && e.manifest.programId == programId && e.manifest.approvedHash == e.computedHash && e.policySnapshotValid
      && sent[k].url == u.join(u.split(steps[k].target).scheme, u.split(steps[k].target).netloc, steps[k].path)
      && PolicyAllows(x, reading(e.manifest).policy, sent[k], ws[k].resolver)
      && SourceIsFresh(gs[n + 1], e.manifest, ss[n].env)
  {
    var m := GateRuns.RequireActive(gs[n + 1].programs, programId).value;
    GateRuns.PreflightIsFresh(gs, ss, n, programId);
    ApprovalGate.LoadedForCorrect(ss[n].loaded, programId);
    var e := ApprovalGate.LoadedFor(ss[n].loaded, programId).value;
    Verifier.JournalMeaning(x, u, reading(m), steps, ws, sent, interval, k);
    assert steps[k] in steps;
    Verifier.RequestOfAStep(x, u, reading(m), steps[k], ws[k], sent[k]);
    Verifier.SentRequestsWereAuthorized(x, u, reading(m), steps[k], ws[k], sent[k]);
    assert e in ss[n].loaded && e.manifest == m;
  }

  /** The request is inside the policy: its method and URL, the rules, and every address its host resolved to. */
  ghost predicate PolicyAllows(x: Texts, p: Policy, r: Verifier.Request, resolver: Resolver) {
    var t := x.parse(r.url);
    && ScopeMeaning.WithinLimits(x, p, t, r.httpMethod)
    && (forall q <- p.excludes :: RuleMatches(x, q, t).No?) && (exists q <- p.includes :: RuleMatches(x, q, t).Yes?)
    && t.url.hostname.Some?
    && var ips := ScopeMeaning.AddressesOf(x, t.url.hostname.value, resolver);
       ips.Some? && ips.value != [] && forall a <- ips.value :: ScopeMeaning.AddressPermitted(x, p, a)
  }

  /** The manifest has no source, or one at its revision and fetched within the stale window. */
  predicate SourceIsFresh(g: ApprovalGate.Gate, m: ApprovalGate.Manifest, env: ApprovalGate.Settings) {
    m.source.Some? ==>
      var ref := m.source.value;
      && ref.sourceId in g.sources
      && var s := g.sources[ref.sourceId];
        && s.programId == m.programId && s.status.Approved? && s.revision == Some(ref.revisionHash)
        && s.lastSuccess.Some? && s.lastSuccess.value >= env.now - env.maxStale
  }
}
