/**
  The finding lifecycle: planner, verifier and critic (bbpipeline/workflow.py) and the human gate
  (bbpipeline/api.py).
*/
module Findings {
  import opened Common

  datatype Status =
    | Rejected | NeedsHuman | VerificationQueued | CriticQueued | AwaitingHuman
    | Validated | RejectedByHuman | Submitted

  datatype Critique = Critique(text: string, validCited: seq<string>)

  datatype Finding = Finding(
    programId: string, status: Status, severity: string, confidence: real,
    verification: Option<string>, critique: Option<Critique>, report: Option<string>,
    evidence: seq<string>, humanValidated: bool, submitted: bool)

  /**
    What require_active_program hands on: the manifest's LLM settings, or nothing when it raises.
    packetFits says whether a critic packet built now can be brought under its ceiling.
  */
  datatype Llm = Llm(enabled: bool, criticProvider: string, packetFits: bool)

  // ---------------------------------------------------------------- the steps, finding by finding

  datatype Disposition = Candidate | NotAFinding | Inconclusive | NeedsManualValidation

  /** A planner's answer; automatic is what compile_plan made of its steps, None when that raised. */
  datatype Hypothesis = Hypothesis(
    disposition: Disposition, automatic: Option<bool>, severity: string, confidence: real, cited: seq<string>)

  /** The event a planner job names. */
  datatype EventRef = EventRef(programId: string, evidence: seq<string>)

  /** What makes a step raise; its transaction then rolls back. */
  datatype StepError = InvalidEvent | InvalidFinding | ProgramUnavailable | PlanRaised | PacketTooLarge

  /** sorted(set(a) & set(b)) */
  function SortedIntersection(a: seq<string>, b: seq<string>): seq<string> {
    if a == [] then []
    else
      var rest := SortedIntersection(a[..|a| - 1], b);
      if a[|a| - 1] in b then InsertSorted(rest, a[|a| - 1], StrLess) else rest
  }

  function Planned(h: Hypothesis, event: EventRef, llmEvidence: string): Finding {
    var status :=
      match h.disposition
      case NotAFinding => Rejected
      case Candidate => if h.automatic == Some(true) then VerificationQueued else NeedsHuman
      case _ => NeedsHuman;
    Finding(event.programId, status, h.severity, h.confidence, None, None, None,
            SortedUnion(SortedIntersection(h.cited, event.evidence), [llmEvidence], StrLess), false, false)
  }

  function Verified(f: Finding, verification: string, evidenceId: string, llm: Llm): Finding {
    f.(verification := Some(verification), evidence := SortedUnion(f.evidence, [evidenceId], StrLess),
       status := if llm.enabled then CriticQueued else AwaitingHuman)
  }

  datatype Verdict = Supported | Unsupported | Unclear | ManualCheck

  datatype CriticOutput = CriticOutput(
    verdict: Verdict, confidence: real, severity: string, text: string, cited: seq<string>)

  function Criticized(f: Finding, c: CriticOutput, llmEvidence: string): Finding {
    f.(critique := Some(Critique(c.text, SortedIntersection(c.cited, f.evidence))),
       evidence := SortedUnion(f.evidence, [llmEvidence], StrLess),
       status := if c.verdict.Unsupported? then Rejected else AwaitingHuman,
       severity := if c.severity != "unknown" then c.severity else f.severity,
       confidence := if c.confidence < f.confidence then c.confidence else f.confidence)
  }

  datatype HumanAction =
    | RecordManualVerification(verification: string, evidenceId: string)
    | Validate(report: Option<string>)
    | Reject
    | MarkSubmitted(report: Option<string>)

  datatype ActionError =
    | NotFound | SubmittedIsClosed | FindingIsClosed | ProgramPaused | NoVerification | NoCritique | NotValidated
    | CriticPacketTooLarge

  /** A critic is due, but its packet cannot be built. */
  predicate NoCriticPacket(llm: Llm) {
    llm.enabled && !llm.packetFits
  }

  /** The human gate: the conflict it answers with, or nothing. */
  function Refusal(f: Finding, a: HumanAction, program: Option<Llm>): Option<ActionError> {
    if f.submitted && !a.MarkSubmitted? then Some(SubmittedIsClosed)
    else
      match a
      case RecordManualVerification(_, _) =>
        if f.submitted || f.status.Rejected? || f.status.RejectedByHuman? then Some(FindingIsClosed)
        else if program.None? then Some(ProgramPaused)
        else if NoCriticPacket(program.value) then Some(CriticPacketTooLarge) else None
      case Validate(_) =>
        if program.None? then Some(ProgramPaused)
        else if f.verification.None? then Some(NoVerification)
        else if program.value.enabled && f.critique.None? then Some(NoCritique) else None
      case Reject => None
      case MarkSubmitted(_) => if !f.humanValidated then Some(NotValidated) else None
  }

  function Acted(f: Finding, a: HumanAction, program: Option<Llm>): Finding
    requires Refusal(f, a, program).None?
  {
    match a
    case RecordManualVerification(v, evidenceId) => Verified(f, v, evidenceId, program.value)
    case Validate(report) =>
      f.(humanValidated := true, status := Validated, report := if report.Some? then report else f.report)
    case Reject => f.(humanValidated := false, status := RejectedByHuman)
    case MarkSubmitted(report) =>
      f.(submitted := true, status := Submitted, report := if report.Some? then report else f.report)
  }

  // ---------------------------------------------------------------- the tables

  type CriticKey = (nat, string)   // finding and provider

  /** Findings by id; the verify jobs and critic jobs ever enqueued, by dedupe key. */
  datatype Desk = Desk(findings: seq<Finding>, verifyJobs: seq<nat>, criticJobs: seq<CriticKey>)

  function PlanRefusal(jobProgram: string, h: Hypothesis, event: Option<EventRef>,
          program: Option<Llm>): Option<StepError> {
    if event.None? || event.value.programId != jobProgram then Some(InvalidEvent)
    else if program.None? then Some(ProgramUnavailable)
    else if h.automatic.None? then Some(PlanRaised) else None
  }

  function AfterPlan(d: Desk, jobProgram: string, h: Hypothesis, event: Option<EventRef>, program: Option<Llm>,
          llmEvidence: string): Desk {
    if PlanRefusal(jobProgram, h, event, program).Some? then d
    else
      var id := |d.findings|;
      d.(findings := d.findings + [Planned(h, event.value, llmEvidence)],
         verifyJobs :=
           if h.disposition.Candidate? && h.automatic.value && id !in d.verifyJobs then d.verifyJobs + [id]
           else d.verifyJobs)
  }

  function VerificationRefusal(d: Desk, id: nat, program: Option<Llm>): Option<StepError> {
    if id >= |d.findings| then Some(InvalidFinding)
    else if program.None? then Some(ProgramUnavailable)
    else if NoCriticPacket(program.value) then Some(PacketTooLarge) else None
  }

  function AfterVerification(d: Desk, id: nat, verification: string, evidenceId: string, program: Option<Llm>): Desk {
    if VerificationRefusal(d, id, program).Some? then d
    else
      var key := (id, program.value.criticProvider);
      d.(findings := d.findings[id := Verified(d.findings[id], verification, evidenceId, program.value)],
         criticJobs := if program.value.enabled && key !in d.criticJobs then d.criticJobs + [key] else d.criticJobs)
  }

  function AfterCritic(d: Desk, jobProgram: string, id: nat, c: CriticOutput, llmEvidence: string): Desk {
    if id >= |d.findings| || d.findings[id].programId != jobProgram then d
    else d.(findings := d.findings[id := Criticized(d.findings[id], c, llmEvidence)])
  }

  function AfterAction(d: Desk, id: nat, a: HumanAction, program: Option<Llm>): Desk {
    if id >= |d.findings| || Refusal(d.findings[id], a, program).Some? then d
    else if a.RecordManualVerification? then AfterVerification(d, id, a.verification, a.evidenceId, program)
    else d.(findings := d.findings[id := Acted(d.findings[id], a, program)])
  }

  // ---------------------------------------------------------------- the same, field by field

  ghost predicate OnlyFinding(before: seq<Finding>, after: seq<Finding>, id: nat) {
    && id < |before| == |after|
    && forall k: nat | k < |before| && k != id :: after[k] == before[k]
  }

  /** The list is sorted and free of duplicates, and holds what it held and the new id; a list that was not stays so. */
  ghost predicate EvidenceWith(evidence: seq<string>, before: seq<string>, id: string) {
    Ascending(before, StrLess) ==>
      Ascending(evidence, StrLess) && forall v :: v in evidence <==> v in before || v == id
  }

  /** Which conflict, if any, an action on an open finding is answered with. */
  predicate Answered(f: Finding, a: HumanAction, program: Option<Llm>, error: Option<ActionError>) {
    match a
    case RecordManualVerification(_, _) =>
      var closed := f.status.Rejected? || f.status.RejectedByHuman?;
      && (error == Some(FindingIsClosed) <==> closed)
      && (error == Some(ProgramPaused) <==> !closed && program.None?)
      && (error == Some(CriticPacketTooLarge) <==>
            !closed && program.Some? && program.value.enabled && !program.value.packetFits)
      && (error.None? <==> !closed && program.Some? && (program.value.enabled ==> program.value.packetFits))
    case Validate(_) =>
      && (error == Some(ProgramPaused) <==> program.None?)
      && (error == Some(NoVerification) <==> program.Some? && f.verification.None?)
      && (error == Some(NoCritique) <==>
            program.Some? && f.verification.Some? && program.value.enabled && f.critique.None?)
      && (error.None? <==>
            program.Some? && f.verification.Some? && (program.value.enabled ==> f.critique.Some?))
    case Reject => error.None?
    case MarkSubmitted(_) =>
      (error == Some(NotValidated) <==> !f.humanValidated) && (error.None? <==> f.humanValidated)
  }

  /** What an action that is not refused changes; a field it does not name stays. */
  ghost predicate TookEffect(was: Finding, f: Finding, a: HumanAction, program: Option<Llm>) {
    && f.programId == was.programId && f.severity == was.severity && f.confidence == was.confidence
    && f.critique == was.critique
    && (!a.RecordManualVerification? ==> f.verification == was.verification && f.evidence == was.evidence)
    && match a
       case RecordManualVerification(verification, evidenceId) =>
         && f.verification == Some(verification) && EvidenceWith(f.evidence, was.evidence, evidenceId)
         && program.Some? && (f.status.CriticQueued? <==> program.value.enabled)
         && (f.status.AwaitingHuman? <==> !program.value.enabled)
         && f.report == was.report && f.humanValidated == was.humanValidated && f.submitted == was.submitted
       case Validate(report) =>
         && f.status.Validated? && f.humanValidated && f.submitted == was.submitted
         && f.report == (if report.Some? then report else was.report)
       case Reject =>
         f.status.RejectedByHuman? && !f.humanValidated && f.submitted == was.submitted && f.report == was.report
       case MarkSubmitted(report) =>
         && f.status.Submitted? && f.submitted && f.humanValidated == was.humanValidated
         && f.report == (if report.Some? then report else was.report)
  }

  lemma EvidenceGrows(before: seq<string>, id: string)
    ensures EvidenceWith(SortedUnion(before, [id], StrLess), before, id)
  {
    if Ascending(before, StrLess) {
      StrLessIsStrictOrder();
      SortedUnionCorrect(before, [id], StrLess);
    }
  }

  lemma SortedCitations(cited: seq<string>, evidence: seq<string>, id: string)
    ensures
      var s := SortedUnion(SortedIntersection(cited, evidence), [id], StrLess);
      Ascending(s, StrLess) && forall v :: v in s <==> v == id || (v in cited && v in evidence)
  {
    StrLessIsStrictOrder();
    SortedIntersectionCorrect(cited, evidence);
    SortedUnionCorrect(SortedIntersection(cited, evidence), [id], StrLess);
  }

  class FindingDesk {
    var findings: seq<Finding>
    var verifyJobs: seq<nat>
    var criticJobs: seq<CriticKey>

    constructor ()
      ensures Desk(findings, verifyJobs, criticJobs) == Desk([], [], [])
    {
      findings, verifyJobs, criticJobs := [], [], [];
    }

    method ProcessPlannerOutput(jobProgram: string, h: Hypothesis, event: Option<EventRef>, program: Option<Llm>,
            llmEvidence: string)
      returns (r: Result<nat, StepError>)
      modifies this
      ensures r == (match PlanRefusal(jobProgram, h, event, program)
                    case Some(e) => Err(e)
                    case None => Ok(|old(findings)|))
      ensures Desk(findings, verifyJobs, criticJobs) ==
        AfterPlan(old(Desk(findings, verifyJobs, criticJobs)), jobProgram, h, event, program, llmEvidence)
      ensures r == Err(InvalidEvent) <==> event.None? || event.value.programId != jobProgram
      ensures r == Err(ProgramUnavailable) <==> event.Some? && event.value.programId == jobProgram && program.None?
      ensures r == Err(PlanRaised) <==>
        event.Some? && event.value.programId == jobProgram && program.Some? && h.automatic.None?
      ensures r.Err? ==>
        findings == old(findings) && verifyJobs == old(verifyJobs) && criticJobs == old(criticJobs)
      ensures r.Ok? ==>
        && r.value == |old(findings)| && |findings| == |old(findings)| + 1 && old(findings) <= findings
        && var f := findings[r.value];
           && (f.status.Rejected? <==> h.disposition.NotAFinding?)
           && (f.status.VerificationQueued? <==> h.disposition.Candidate? && h.automatic == Some(true))
           && (f.status.Rejected? || f.status.VerificationQueued? || f.status.NeedsHuman?)
           && f.programId == jobProgram && f.severity == h.severity && f.confidence == h.confidence
           && f.verification.None? && f.critique.None? && f.report.None? && !f.humanValidated && !f.submitted
           && Ascending(f.evidence, StrLess)
           && (forall v :: v in f.evidence <==> v == llmEvidence || (v in h.cited && v in event.value.evidence))
      ensures r.Ok? ==>
        && criticJobs == old(criticJobs)
        && (forall id :: id in verifyJobs <==>
              id in old(verifyJobs) || (id == r.value && h.disposition.Candidate? && h.automatic == Some(true)))
    {
      if event.Some? {
        SortedCitations(h.cited, event.value.evidence, llmEvidence);
      }
      if event.None? || event.value.programId != jobProgram {
        return Err(InvalidEvent);
      }
      if program.None? {
        return Err(ProgramUnavailable);
      }
      if h.automatic.None? {
        return Err(PlanRaised);
      }
      var status := NeedsHuman;
      if h.disposition.NotAFinding? {
        status := Rejected;
      } else if h.disposition.Candidate? && h.automatic.value {
        status := VerificationQueued;
      }
      var valid := SortedIntersection(h.cited, event.value.evidence);
      var id := |findings|;
      findings := findings + [Finding(event.value.programId, status, h.severity, h.confidence, None, None, None,
                                      SortedUnion(valid, [llmEvidence], StrLess), false, false)];
      if h.disposition.Candidate? && h.automatic.value {
        if id !in verifyJobs {
          verifyJobs := verifyJobs + [id];
        }
      }
      return Ok(id);
    }

    method RecordVerification(id: nat, verification: string, evidenceId: string, program: Option<Llm>)
      returns (error: Option<StepError>)
      modifies this
      ensures error == VerificationRefusal(old(Desk(findings, verifyJobs, criticJobs)), id, program)
      ensures Desk(findings, verifyJobs, criticJobs) ==
        AfterVerification(old(Desk(findings, verifyJobs, criticJobs)), id, verification, evidenceId, program)
      ensures error == Some(InvalidFinding) <==> id >= |old(findings)|
      ensures error == Some(ProgramUnavailable) <==> id < |old(findings)| && program.None?
      ensures error == Some(PacketTooLarge) <==>
        id < |old(findings)| && program.Some? && program.value.enabled && !program.value.packetFits
      ensures error.Some? ==>
        findings == old(findings) && verifyJobs == old(verifyJobs) && criticJobs == old(criticJobs)
      ensures error.None? ==>
        && OnlyFinding(old(findings), findings, id) && verifyJobs == old(verifyJobs)
        && var was, f := old(findings)[id], findings[id];
           && f.verification == Some(verification)
           && (f.status.CriticQueued? <==> program.value.enabled)
           && (f.status.AwaitingHuman? <==> !program.value.enabled)
           && EvidenceWith(f.evidence, was.evidence, evidenceId)
           && f.programId == was.programId && f.severity == was.severity && f.confidence == was.confidence
           && f.critique == was.critique && f.report == was.report
           && f.humanValidated == was.humanValidated && f.submitted == was.submitted
      ensures error.None? ==>
        forall key :: key in criticJobs <==>
          key in old(criticJobs) || (program.value.enabled && key == (id, program.value.criticProvider))
    {
      if id >= |findings| {
        return Some(InvalidFinding);
      }
      EvidenceGrows(findings[id].evidence, evidenceId);
      if program.None? {
        return Some(ProgramUnavailable);
      }
      var f := findings[id].(verification := Some(verification));
      f := f.(evidence := SortedUnion(f.evidence, [evidenceId], StrLess));
      if program.value.enabled {
        f := f.(status := CriticQueued);
        if !program.value.packetFits {
          return Some(PacketTooLarge);
        }
        var key := (id, program.value.criticProvider);
        if key !in criticJobs {
          criticJobs := criticJobs + [key];
        }
      } else {
        f := f.(status := AwaitingHuman);
      }
      findings := findings[id := f];
      return None;
    }

    method ProcessCriticOutput(jobProgram: string, id: nat, c: CriticOutput, llmEvidence: string)
      returns (error: Option<StepError>)
      modifies this
      ensures error ==
        if id >= |old(findings)| || old(findings)[id].programId != jobProgram then Some(InvalidFinding) else None
      ensures Desk(findings, verifyJobs, criticJobs) ==
        AfterCritic(old(Desk(findings, verifyJobs, criticJobs)), jobProgram, id, c, llmEvidence)
      ensures error.Some? ==> findings == old(findings)
      ensures verifyJobs == old(verifyJobs) && criticJobs == old(criticJobs)
      ensures error.None? ==>
        && OnlyFinding(old(findings), findings, id)
        && var was, f := old(findings)[id], findings[id];
           && (f.status.Rejected? <==> c.verdict.Unsupported?) && (f.status.AwaitingHuman? <==> !c.verdict.Unsupported?)
           && f.confidence <= was.confidence && f.confidence <= c.confidence
           && (f.confidence == was.confidence || f.confidence == c.confidence)
           && f.severity == (if c.severity == "unknown" then was.severity else c.severity)
           && f.critique.Some? && f.critique.value.text == c.text
           && Ascending(f.critique.value.validCited, StrLess)
           && (forall v :: v in f.critique.value.validCited <==> v in c.cited && v in was.evidence)
           && EvidenceWith(f.evidence, was.evidence, llmEvidence)
           && f.programId == was.programId && f.verification == was.verification && f.report == was.report
           && f.humanValidated == was.humanValidated && f.submitted == was.submitted
    {
      if id >= |findings| || findings[id].programId != jobProgram {
        return Some(InvalidFinding);
      }
      EvidenceGrows(findings[id].evidence, llmEvidence);
      SortedIntersectionCorrect(c.cited, findings[id].evidence);
      var f := findings[id];
      var valid := SortedIntersection(c.cited, f.evidence);
      f := f.(critique := Some(Critique(c.text, valid)));
      f := f.(evidence := SortedUnion(f.evidence, [llmEvidence], StrLess));
      f := f.(status := if c.verdict.Unsupported? then Rejected else AwaitingHuman);
      if c.severity != "unknown" {
        f := f.(severity := c.severity);
      }
      f := f.(confidence := if c.confidence < f.confidence then c.confidence else f.confidence);
      findings := findings[id := f];
      return None;
    }

    method FindingAction(id: nat, a: HumanAction, program: Option<Llm>) returns (error: Option<ActionError>)
      modifies this
      ensures error == if id >= |old(findings)| then Some(NotFound) else Refusal(old(findings)[id], a, program)
      ensures Desk(findings, verifyJobs, criticJobs) ==
        AfterAction(old(Desk(findings, verifyJobs, criticJobs)), id, a, program)
      ensures error.Some? ==>
        findings == old(findings) && verifyJobs == old(verifyJobs) && criticJobs == old(criticJobs)
      ensures error == Some(NotFound) <==> id >= |old(findings)|
      ensures id < |old(findings)| ==>
        && (error == Some(SubmittedIsClosed) <==> old(findings)[id].submitted && !a.MarkSubmitted?)
        && (!old(findings)[id].submitted || a.MarkSubmitted? ==> Answered(old(findings)[id], a, program, error))
      ensures error.None? ==>
        && OnlyFinding(old(findings), findings, id) && verifyJobs == old(verifyJobs)
        && (!a.RecordManualVerification? ==> criticJobs == old(criticJobs))
        && TookEffect(old(findings)[id], findings[id], a, program)
    {
      if id >= |findings| {
        return Some(NotFound);
      }
      var f := findings[id];
      if f.submitted && !a.MarkSubmitted? {
        return Some(SubmittedIsClosed);
      }
      match a {
        case RecordManualVerification(verification, evidenceId) =>
          if f.status.Rejected? || f.status.RejectedByHuman? {
            return Some(FindingIsClosed);
          }
          var failed := RecordVerification(id, verification, evidenceId, program);
          if failed.Some? {
            return Some(if program.None? then ProgramPaused else CriticPacketTooLarge);
          }
        case Validate(report) =>
          if program.None? {
            return Some(ProgramPaused);
          }
          if f.verification.None? {
            return Some(NoVerification);
          }
          if program.value.enabled && f.critique.None? {
            return Some(NoCritique);
          }
          f := f.(humanValidated := true, status := Validated);
          if report.Some? {
            f := f.(report := report);
          }
          findings := findings[id := f];
        case Reject =>
          findings := findings[id := f.(humanValidated := false, status := RejectedByHuman)];
        case MarkSubmitted(report) =>
          if !f.humanValidated {
            return Some(NotValidated);
          }
          f := f.(submitted := true, status := Submitted);
          if report.Some? {
            f := f.(report := report);
          }
          findings := findings[id := f];
      }
      return None;
    }
  }

  lemma {:induction false} SortedIntersectionCorrect(a: seq<string>, b: seq<string>)
    ensures Ascending(SortedIntersection(a, b), StrLess)
    ensures forall v :: v in SortedIntersection(a, b) <==> v in a && v in b
  {
    if a != [] {
      var init := a[..|a| - 1];
      SortedIntersectionCorrect(init, b);
      StrLessIsStrictOrder();
      InsertSortedCorrect(SortedIntersection(init, b), a[|a| - 1], StrLess);
      assert forall v :: v in a <==> v in init || v == a[|a| - 1];
    }
  }
}
