/** What holds of every finding over every interleaving of planner, verifier, critic and human steps. */
module FindingRuns {
  import opened Common
  import opened Findings

  datatype Step =
    | Plan(jobProgram: string, hypothesis: Hypothesis, event: Option<EventRef>,
           program: Option<Llm>, llmEvidence: string)
    | Verify(id: nat, verification: string, evidenceId: string, program: Option<Llm>)
    | Criticize(jobProgram: string, id: nat, output: CriticOutput, llmEvidence: string)
    | Human(id: nat, action: HumanAction, program: Option<Llm>)

  function Next(d: Desk, s: Step): Desk {
    match s
    case Plan(jobProgram, h, event, program, e) => AfterPlan(d, jobProgram, h, event, program, e)
    case Verify(id, v, e, program) => AfterVerification(d, id, v, e, program)
    case Criticize(jobProgram, id, c, e) => AfterCritic(d, jobProgram, id, c, e)
    case Human(id, a, program) => AfterAction(d, id, a, program)
  }

  ghost predicate IsRun(ds: seq<Desk>, ss: seq<Step>) {
    && |ds| == |ss| + 1
    && ds[0] == Desk([], [], [])
    && forall i | 0 <= i < |ss| :: ds[i + 1] == Next(ds[i], ss[i])
  }

  // ---------------------------------------------------------------- one finding, one step

  /** The gates a finding has passed are consistent with each other and with its status. */
  predicate Consistent(f: Finding) {
    && (f.submitted ==> f.humanValidated)
    && (f.humanValidated ==> f.verification.Some?)
    && (f.status.Submitted? ==> f.submitted)
    && (f.status.Validated? ==> f.humanValidated)
    && Ascending(f.evidence, StrLess)
    && (f.critique.Some? ==> forall v <- f.critique.value.validCited :: v in f.evidence)
  }

  /** What no step takes back. */
  predicate MovesForward(f: Finding, f': Finding) {
    && (f.submitted ==> f'.submitted)
    && (f.verification.Some? ==> f'.verification.Some?)
    && (f.critique.Some? ==> f'.critique.Some?)
    && (forall v <- f.evidence :: v in f'.evidence)
    && f'.confidence <= f.confidence
  }

  lemma PlannedIsConsistent(h: Hypothesis, event: EventRef, llmEvidence: string)
    ensures var f := Planned(h, event, llmEvidence);
      && Consistent(f) && !f.humanValidated && f.verification.None?
      && (forall v <- f.evidence :: v == llmEvidence || (v in h.cited && v in event.evidence))
  {
    StrLessIsStrictOrder();
    SortedIntersectionCorrect(h.cited, event.evidence);
    SortedUnionCorrect(SortedIntersection(h.cited, event.evidence), [llmEvidence], StrLess);
  }

  lemma VerifiedStaysConsistent(f: Finding, v: string, e: string, llm: Llm)
    requires Consistent(f)
    ensures Consistent(Verified(f, v, e, llm)) && MovesForward(f, Verified(f, v, e, llm))
  {
    StrLessIsStrictOrder();
    SortedUnionCorrect(f.evidence, [e], StrLess);
  }

  lemma CriticizedStaysConsistent(f: Finding, c: CriticOutput, e: string)
    requires Consistent(f)
    ensures Consistent(Criticized(f, c, e)) && MovesForward(f, Criticized(f, c, e))
  {
    StrLessIsStrictOrder();
    SortedUnionCorrect(f.evidence, [e], StrLess);
    SortedIntersectionCorrect(c.cited, f.evidence);
  }

  lemma StepKeepsFindings(d: Desk, s: Step, id: nat)
    requires id < |d.findings| && Consistent(d.findings[id])
    ensures id < |Next(d, s).findings|
    ensures Consistent(Next(d, s).findings[id]) && MovesForward(d.findings[id], Next(d, s).findings[id])
  {
    var f := d.findings[id];
    match s {
      case Plan(_, _, _, _, _) =>
      case Verify(_, v, e, program) =>
        if program.Some? { VerifiedStaysConsistent(f, v, e, program.value); }
      case Criticize(_, _, c, e) => CriticizedStaysConsistent(f, c, e);
      case Human(_, a, program) =>
        if a.RecordManualVerification? && program.Some? {
          VerifiedStaysConsistent(f, a.verification, a.evidenceId, program.value);
        }
    }
  }

  // ---------------------------------------------------------------- every run

  /** submitted implies human-validated implies a recorded verification, in every reachable state. */
  lemma {:induction false} FindingsStayConsistent(ds: seq<Desk>, ss: seq<Step>, n: nat)
    requires IsRun(ds, ss) && n <= |ss|
    ensures forall f <- ds[n].findings :: Consistent(f)
  {
    if n > 0 {
      FindingsStayConsistent(ds, ss, n - 1);
      var d, s := ds[n - 1], ss[n - 1];
      forall id: nat | id < |ds[n].findings| ensures Consistent(ds[n].findings[id]) {
        if id < |d.findings| {
          assert d.findings[id] in d.findings;
          StepKeepsFindings(d, s, id);
        } else {
          PlannedIsConsistent(s.hypothesis, s.event.value, s.llmEvidence);
        }
      }
    }
  }

  /** Submission is irreversible, evidence only grows, confidence never rises. */
  lemma {:induction false} FindingsMoveForward(ds: seq<Desk>, ss: seq<Step>, i: nat, k: nat, id: nat)
    requires IsRun(ds, ss) && i <= k <= |ss| && id < |ds[i].findings|
    ensures id < |ds[k].findings| && MovesForward(ds[i].findings[id], ds[k].findings[id])
    decreases k
  {
    if i < k {
      FindingsMoveForward(ds, ss, i, k - 1, id);
      FindingsStayConsistent(ds, ss, k - 1);
      assert ds[k - 1].findings[id] in ds[k - 1].findings;
      StepKeepsFindings(ds[k - 1], ss[k - 1], id);
    }
  }

  /** A finding is created waiting for verification exactly when its verify job is enqueued with it. */
  lemma {:induction false} VerifyJobsMatchCreation(ds: seq<Desk>, ss: seq<Step>, n: nat)
    requires IsRun(ds, ss) && n <= |ss|
    ensures NoDuplicates(ds[n].verifyJobs) && NoDuplicates(ds[n].criticJobs)
    ensures forall id <- ds[n].verifyJobs :: id < |ds[n].findings|
    ensures n < |ss| && ss[n].Plan? && |ds[n + 1].findings| > |ds[n].findings| ==>
      var id := |ds[n].findings|;
      (ds[n + 1].findings[id].status.VerificationQueued? <==> id in ds[n + 1].verifyJobs)
    ensures n < |ss| && |ds[n + 1].findings| == |ds[n].findings| ==> ds[n + 1].verifyJobs == ds[n].verifyJobs
  {
    if n > 0 {
      VerifyJobsMatchCreation(ds, ss, n - 1);
    }
    if n < |ss| {
      assert ds[n + 1] == Next(ds[n], ss[n]);
    }
  }

  // ---------------------------------------------------------------- the human gate, as history

  predicate Succeeds(d: Desk, s: Step, id: nat) {
    s.Human? && s.id == id && id < |d.findings| && Refusal(d.findings[id], s.action, s.program).None?
  }

  /** A verification of the finding was recorded at this step, by the verifier or by a person. */
  predicate RecordsVerification(d: Desk, s: Step, id: nat) {
    || (s.Verify? && s.id == id && VerificationRefusal(d, id, s.program).None?)
    || (Succeeds(d, s, id) && s.action.RecordManualVerification?)
  }

  lemma {:induction false} VerificationWasRecorded(ds: seq<Desk>, ss: seq<Step>, n: nat, id: nat) returns (i: nat)
    requires IsRun(ds, ss) && n <= |ss| && id < |ds[n].findings| && ds[n].findings[id].verification.Some?
    ensures i < n && RecordsVerification(ds[i], ss[i], id)
  {
    assert n > 0;
    assert ds[n] == Next(ds[n - 1], ss[n - 1]);
    if RecordsVerification(ds[n - 1], ss[n - 1], id) {
      i := n - 1;
    } else {
      i := VerificationWasRecorded(ds, ss, n - 1, id);
    }
  }

  lemma {:induction false} ValidationWasGiven(ds: seq<Desk>, ss: seq<Step>, n: nat, id: nat) returns (j: nat)
    requires IsRun(ds, ss) && n <= |ss| && id < |ds[n].findings| && ds[n].findings[id].humanValidated
    ensures j < n && Succeeds(ds[j], ss[j], id) && ss[j].action.Validate?
    ensures forall m | j < m < n :: !(Succeeds(ds[m], ss[m], id) && ss[m].action.Reject?)
  {
    assert n > 0;
    assert ds[n] == Next(ds[n - 1], ss[n - 1]);
    if Succeeds(ds[n - 1], ss[n - 1], id) && ss[n - 1].action.Validate? {
      j := n - 1;
    } else {
      j := ValidationWasGiven(ds, ss, n - 1, id);
    }
  }

  /**
    Behind every submitted finding stands a person's submission, before it a person's validation not
    withdrawn in between, and before that a recorded verification.
  */
  lemma {:induction false} SubmissionHasItsHistory(ds: seq<Desk>, ss: seq<Step>, n: nat, id: nat)
    returns (i: nat, j: nat, k: nat)
    requires IsRun(ds, ss) && n <= |ss| && id < |ds[n].findings| && ds[n].findings[id].submitted
    ensures i < j < k < n
    ensures RecordsVerification(ds[i], ss[i], id)
    ensures Succeeds(ds[j], ss[j], id) && ss[j].action.Validate?
    ensures Succeeds(ds[k], ss[k], id) && ss[k].action.MarkSubmitted?
    ensures forall m | j < m < k :: !(Succeeds(ds[m], ss[m], id) && ss[m].action.Reject?)
  {
    assert n > 0;
    assert ds[n] == Next(ds[n - 1], ss[n - 1]);
    if Succeeds(ds[n - 1], ss[n - 1], id) && ss[n - 1].action.MarkSubmitted? {
      k := n - 1;
      j := ValidationWasGiven(ds, ss, k, id);
      i := VerificationWasRecorded(ds, ss, j, id);
    } else {
      i, j, k := SubmissionHasItsHistory(ds, ss, n - 1, id);
    }
  }

  // ---------------------------------------------------------------- what a status does not mean

  /**
    A submitted finding keeps the status "submitted" until, and only until, a verification or critique
    arrives late.
  */
  lemma SubmittedStatusIsLostExactlyWhen(d: Desk, s: Step, id: nat)
    requires id < |d.findings| && Consistent(d.findings[id])
    requires d.findings[id].submitted && d.findings[id].status.Submitted?
    ensures !Next(d, s).findings[id].status.Submitted? <==>
      || (s.Verify? && s.id == id && VerificationRefusal(d, id, s.program).None?)
      || (s.Criticize? && s.id == id && s.jobProgram == d.findings[id].programId)
  {
  }

  /** Rejection is not final: whether a finding can be validated does not depend on its status at all. */
  lemma ValidationIgnoresStatus(f: Finding, report: Option<string>, program: Option<Llm>)
    ensures Refusal(f, Validate(report), program).None? <==>
      && !f.submitted && program.Some? && f.verification.Some?
      && (program.value.enabled ==> f.critique.Some?)
  {
  }

  // ---------------------------------------------------------------- critic jobs

  /** This step records a verification of the finding for a critic of the given provider. */
  predicate CallsCritic(d: Desk, s: Step, id: nat, provider: string) {
    && RecordsVerification(d, s, id)
    && s.program.value.enabled && s.program.value.criticProvider == provider
  }

  /** A finding has a critic job of a provider exactly when some verification called for one. */
  lemma {:induction false} CriticJobsAnswerVerifications(ds: seq<Desk>, ss: seq<Step>, n: nat, id: nat,
          provider: string)
    requires IsRun(ds, ss) && n <= |ss|
    ensures (id, provider) in ds[n].criticJobs <==> exists m | 0 <= m < n :: CallsCritic(ds[m], ss[m], id, provider)
  {
    if n > 0 {
      CriticJobsAnswerVerifications(ds, ss, n - 1, id, provider);
      assert ds[n] == Next(ds[n - 1], ss[n - 1]);
    }
  }

  /** So of all the verifications of a finding only the first one for each provider enqueues a critic job. */
  lemma CriticIsQueuedOnce(ds: seq<Desk>, ss: seq<Step>, n: nat, id: nat, provider: string)
    requires IsRun(ds, ss) && n < |ss| && CallsCritic(ds[n], ss[n], id, provider)
    ensures id < |ds[n + 1].findings| && ds[n + 1].findings[id].status.CriticQueued?
    ensures ds[n + 1].criticJobs != ds[n].criticJobs <==>
      forall m | 0 <= m < n :: !CallsCritic(ds[m], ss[m], id, provider)
  {
    CriticJobsAnswerVerifications(ds, ss, n, id, provider);
    assert ds[n + 1] == Next(ds[n], ss[n]);
  }

  // ---------------------------------------------------------------- runs that show it

  lemma RunGoesOn(ds: seq<Desk>, ss: seq<Step>, s: Step)
    requires IsRun(ds, ss)
    ensures IsRun(ds + [Next(ds[|ss|], s)], ss + [s])
  {
  }

  /** A candidate is planned, verified by a person before its verify job runs, and criticized. */
  ghost function Opening(program: string, llm: Llm, h: Hypothesis, c: CriticOutput): (seq<Desk>, seq<Step>) {
    var ss := [Plan(program, h, Some(EventRef(program, [])), Some(llm), "e0"),
               Human(0, RecordManualVerification("by hand", "e1"), Some(llm)),
               Criticize(program, 0, c, "e2")];
    var d0 := Desk([], [], []);
    var d1 := Next(d0, ss[0]);
    var d2 := Next(d1, ss[1]);
    ([d0, d1, d2, Next(d2, ss[2])], ss)
  }

  lemma OpeningIsARun(program: string, llm: Llm, h: Hypothesis, c: CriticOutput)
    requires h.disposition.Candidate? && h.automatic == Some(true) && llm.enabled && llm.packetFits
    ensures var (ds, ss) := Opening(program, llm, h, c);
      && IsRun(ds, ss) && |ss| == 3 && |ds[3].findings| == 1
      && var f := ds[3].findings[0];
         && f.programId == program && f.verification.Some? && f.critique.Some?
         && !f.submitted && !f.humanValidated && CallsCritic(ds[1], ss[1], 0, llm.criticProvider)
  {
  }

  /** Every finding so opened can be validated and submitted, and the verify job then hides the submission. */
  lemma SubmittedStatusGetsLost(program: string, llm: Llm, h: Hypothesis, c: CriticOutput)
    requires h.disposition.Candidate? && h.automatic == Some(true) && llm.enabled && llm.packetFits
    ensures exists ds: seq<Desk>, ss: seq<Step> ::
      && IsRun(ds, ss) && |ss| == 6 && |ds[5].findings| == |ds[6].findings| == 1
      && ds[5].findings[0].status.Submitted?
      && ds[6].findings[0].submitted && ds[6].findings[0].status.CriticQueued?
  {
    OpeningIsARun(program, llm, h, c);
    var (d3, s3) := Opening(program, llm, h, c);
    var validate, submit := Human(0, Validate(None), Some(llm)), Human(0, MarkSubmitted(None), Some(llm));
    var late := Verify(0, "by the job", "e3", Some(llm));
    RunGoesOn(d3, s3, validate);
    var d4, s4 := d3 + [Next(d3[3], validate)], s3 + [validate];
    RunGoesOn(d4, s4, submit);
    var d5, s5 := d4 + [Next(d4[4], submit)], s4 + [submit];
    RunGoesOn(d5, s5, late);
    var d6, s6 := d5 + [Next(d5[5], late)], s5 + [late];
    assert IsRun(d6, s6) && d6[5] == d5[5] && d5[5].findings[0].status.Submitted?;
  }

  /** Every finding so opened can be rejected by a person and then validated. */
  lemma RejectedFindingGetsValidated(program: string, llm: Llm, h: Hypothesis, c: CriticOutput)
    requires h.disposition.Candidate? && h.automatic == Some(true) && llm.enabled && llm.packetFits
    ensures exists ds: seq<Desk>, ss: seq<Step> ::
      && IsRun(ds, ss) && |ss| == 5 && |ds[4].findings| == |ds[5].findings| == 1
      && ds[4].findings[0].status.RejectedByHuman?
      && ds[5].findings[0].status.Validated? && ds[5].findings[0].humanValidated
  {
    OpeningIsARun(program, llm, h, c);
    var (d3, s3) := Opening(program, llm, h, c);
    var reject, validate := Human(0, HumanAction.Reject, Some(llm)), Human(0, Validate(None), Some(llm));
    RunGoesOn(d3, s3, reject);
    var d4, s4 := d3 + [Next(d3[3], reject)], s3 + [reject];
    RunGoesOn(d4, s4, validate);
    var d5, s5 := d4 + [Next(d4[4], validate)], s4 + [validate];
    assert IsRun(d5, s5) && d5[4] == d4[4] && d4[4].findings[0].status.RejectedByHuman?;
  }

  /** And its verify job leaves it waiting for a critic whose only job is long done. */
  lemma SecondVerificationGetsNoCritic(program: string, llm: Llm, h: Hypothesis, c: CriticOutput)
    requires h.disposition.Candidate? && h.automatic == Some(true) && llm.enabled && llm.packetFits
    ensures exists ds: seq<Desk>, ss: seq<Step> ::
      && IsRun(ds, ss) && |ss| == 4 && |ds[4].findings| == 1
      && CallsCritic(ds[3], ss[3], 0, llm.criticProvider)
      && ds[4].findings[0].status.CriticQueued? && ds[4].criticJobs == ds[3].criticJobs
  {
    OpeningIsARun(program, llm, h, c);
    var (d3, s3) := Opening(program, llm, h, c);
    var second := Verify(0, "by the job", "e3", Some(llm));
    RunGoesOn(d3, s3, second);
    var d4, s4 := d3 + [Next(d3[3], second)], s3 + [second];
    assert d4[1] == d3[1] && d4[3] == d3[3];
    assert IsRun(d4, s4) && CallsCritic(d4[1], s4[1], 0, llm.criticProvider);
    CriticIsQueuedOnce(d4, s4, 3, 0, llm.criticProvider);
  }
}
