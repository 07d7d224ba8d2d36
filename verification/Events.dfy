/** The deduplicating event index (bbpipeline/events.py) and the planner jobs it enqueues. */
module Events {
  import opened Common

  /** What makes two observations the same event. */
  datatype Identity = Identity(source: string, eventType: string, asset: string, templateId: Option<string>)

  datatype EventInput = EventInput(
    source: string, eventType: string, asset: string, severity: string, confidence: real,
    payload: string, evidence: seq<string>)

  /** Text functions, redaction, scoring and the two digests, the latter taken to be injective. */
  datatype Tools = Tools(
    lower: string -> string, upper: string -> string, sanitizeAsset: string -> string, strip: string -> string,
    templateId: string -> Option<string>,
    redact: string -> string,
    score: (EventInput, bool, bool) -> int,
    digest: string -> string,
    identityDigest: Identity -> string)

  ghost predicate DigestsAreInjective(x: Tools) {
    && (forall a, b :: x.digest(a) == x.digest(b) ==> a == b)
    && (forall a, b :: x.identityDigest(a) == x.identityDigest(b) ==> a == b)
  }

  function IdentityOf(x: Tools, e: EventInput): Identity {
    Identity(x.lower(e.source), x.upper(e.eventType),
             x.lower(x.strip(x.sanitizeAsset(e.asset))), x.templateId(e.payload))
  }

  function Fingerprint(x: Tools, e: EventInput): string {
    x.identityDigest(IdentityOf(x, e))
  }

  function PayloadHash(x: Tools, e: EventInput): string {
    x.digest(x.redact(e.payload))
  }

  type EventId = (string, string)   // program and fingerprint

  datatype EventStatus = Observed | Changed | LlmQueued

  datatype Event = Event(
    source: string, eventType: string, asset: string, payloadHash: string,
    severity: string, confidence: real, score: int, payload: string, evidence: seq<string>,
    status: EventStatus, llmQueuedHash: Option<string>)

  datatype LlmPolicy = LlmPolicy(enabled: bool, triggerScore: int, plannerProvider: string)

  /** One call of ingest_event; packetFits says whether a planner packet for it can be brought under its ceiling. */
  datatype Occurrence = Occurrence(programId: string, input: EventInput, llm: LlmPolicy, packetFits: bool)

  /** The dedupe key of a planner job. */
  datatype PlannerKey = PlannerKey(event: EventId, payloadHash: string, provider: string)

  datatype Index = Index(events: map<EventId, Event>, jobs: seq<PlannerKey>)

  function IdOf(x: Tools, o: Occurrence): EventId {
    (o.programId, Fingerprint(x, o.input))
  }

  function KeyOf(x: Tools, o: Occurrence): PlannerKey {
    PlannerKey(IdOf(x, o), PayloadHash(x, o.input), o.llm.plannerProvider)
  }

  predicate IsNew(x: Tools, t: Index, o: Occurrence) {
    IdOf(x, o) !in t.events
  }

  predicate HasChanged(x: Tools, t: Index, o: Occurrence) {
    IdOf(x, o) in t.events && t.events[IdOf(x, o)].payloadHash != PayloadHash(x, o.input)
  }

  function ScoreOf(x: Tools, t: Index, o: Occurrence): int {
    x.score(o.input, IsNew(x, t, o), HasChanged(x, t, o))
  }

  predicate ShouldQueue(x: Tools, t: Index, o: Occurrence) {
    && o.llm.enabled
    && ScoreOf(x, t, o) >= o.llm.triggerScore
    && (IsNew(x, t, o) || HasChanged(x, t, o))
    && (IsNew(x, t, o) || t.events[IdOf(x, o)].llmQueuedHash != Some(PayloadHash(x, o.input)))
  }

  /** Building the packet raises; the transaction rolls back. */
  predicate Raises(x: Tools, t: Index, o: Occurrence) {
    ShouldQueue(x, t, o) && !o.packetFits
  }

  /** The row an ingestion leaves. */
  function RowAfter(x: Tools, t: Index, o: Occurrence): Event {
    var e, id, hash := o.input, IdOf(x, o), PayloadHash(x, o.input);
    var stored :=
      if IsNew(x, t, o) then
        Event(e.source, x.upper(e.eventType), x.sanitizeAsset(e.asset), hash, x.lower(e.severity), e.confidence,
              ScoreOf(x, t, o), x.redact(e.payload), SortedUnion([], e.evidence, StrLess), Observed, None)
      else
        var row := t.events[id];
        var seen := row.(severity := x.lower(e.severity), confidence := e.confidence, asset := x.sanitizeAsset(e.asset),
                         score := ScoreOf(x, t, o), evidence := SortedUnion(row.evidence, e.evidence, StrLess));
        if HasChanged(x, t, o) then seen.(payload := x.redact(e.payload), payloadHash := hash, status := Changed)
        else seen;
    if ShouldQueue(x, t, o) then stored.(llmQueuedHash := Some(hash), status := LlmQueued) else stored
  }

  function JobsAfter(x: Tools, t: Index, o: Occurrence): seq<PlannerKey> {
    if ShouldQueue(x, t, o) && KeyOf(x, o) !in t.jobs then t.jobs + [KeyOf(x, o)] else t.jobs
  }

  datatype IngestError = PacketTooLarge

  datatype Report = Report(changed: bool, llmQueued: bool)

  class EventTables {
    var events: map<EventId, Event>
    var jobs: seq<PlannerKey>

    constructor ()
      ensures events == map[] && jobs == []
    {
      events, jobs := map[], [];
    }

    method Ingest(x: Tools, o: Occurrence) returns (r: Result<Report, IngestError>)
      modifies this
      ensures r.Err? <==> Raises(x, old(Index(events, jobs)), o)
      ensures r.Err? ==> Index(events, jobs) == old(Index(events, jobs))
      ensures r.Ok? ==>
        && events == old(events)[IdOf(x, o) := RowAfter(x, old(Index(events, jobs)), o)]
        && jobs == JobsAfter(x, old(Index(events, jobs)), o)
        && (r.value.changed <==> HasChanged(x, old(Index(events, jobs)), o))
        && (r.value.llmQueued <==> ShouldQueue(x, old(Index(events, jobs)), o))
    {
      var e := o.input;
      var payload := x.redact(e.payload);
      var hash := x.digest(payload);
      var id := IdOf(x, o);
      var isNew := id !in events;
      var changed := !isNew && events[id].payloadHash != hash;
      var score := x.score(e, isNew, changed);
      var row;
      if isNew {
        row := Event(e.source, x.upper(e.eventType), x.sanitizeAsset(e.asset), hash, x.lower(e.severity), e.confidence,
                     score, payload, SortedUnion([], e.evidence, StrLess), Observed, None);
      } else {
        row := events[id];
        row := row.(severity := x.lower(e.severity), confidence := e.confidence);
        row := row.(asset := x.sanitizeAsset(e.asset), score := score);
        row := row.(evidence := SortedUnion(row.evidence, e.evidence, StrLess));
        if changed {
          row := row.(payload := payload, payloadHash := hash, status := Changed);
        }
      }
      var shouldQueue :=
        o.llm.enabled && score >= o.llm.triggerScore && (isNew || changed) && row.llmQueuedHash != Some(hash);
      if shouldQueue {
        if !o.packetFits {
          return Err(PacketTooLarge);
        }
        var key := PlannerKey(id, hash, o.llm.plannerProvider);
        if key !in jobs {
          jobs := jobs + [key];
        }
        row := row.(llmQueuedHash := Some(hash), status := LlmQueued);
      }
      events := events[id := row];
      return Ok(Report(changed, shouldQueue));
    }
  }

  // ---------------------------------------------------------------- the index against its history

  function Ingested(x: Tools, history: seq<Occurrence>): Index {
    if history == [] then Index(map[], [])
    else
      var before := Ingested(x, history[..|history| - 1]);
      var o := history[|history| - 1];
      if Raises(x, before, o) then before
      else Index(before.events[IdOf(x, o) := RowAfter(x, before, o)], JobsAfter(x, before, o))
  }

  /** The occurrences of one event whose ingestion went through, in order. */
  function Occurrences(x: Tools, history: seq<Occurrence>, id: EventId): seq<Occurrence> {
    if history == [] then []
    else
      var o := history[|history| - 1];
      Occurrences(x, history[..|history| - 1], id)
      + if IdOf(x, o) == id && !Raises(x, Ingested(x, history[..|history| - 1]), o) then [o] else []
  }

  predicate CitedIn(seen: seq<Occurrence>, v: string) {
    exists k | 0 <= k < |seen| :: v in seen[k].input.evidence
  }

  /** The row is what its occurrences say: created by the first, overwritten by the last, evidence from all. */
  ghost predicate Reflects(x: Tools, row: Event, seen: seq<Occurrence>)
    requires seen != []
  {
    var first, last := seen[0].input, seen[|seen| - 1].input;
    && row.source == first.source && row.eventType == x.upper(first.eventType)
    && row.asset == x.sanitizeAsset(last.asset)
    && row.severity == x.lower(last.severity) && row.confidence == last.confidence
    && row.payload == x.redact(last.payload) && row.payloadHash == PayloadHash(x, last)
    && Ascending(row.evidence, StrLess)
    && (forall v :: v in row.evidence <==> CitedIn(seen, v))
  }

  lemma {:induction false} IndexReflectsHistory(x: Tools, history: seq<Occurrence>, id: EventId)
    requires DigestsAreInjective(x)
    ensures var seen := Occurrences(x, history, id);
      && (id in Ingested(x, history).events <==> seen != [])
      && (seen != [] ==> Reflects(x, Ingested(x, history).events[id], seen))
  {
    if history != [] {
      var init, o := history[..|history| - 1], history[|history| - 1];
      IndexReflectsHistory(x, init, id);
      if IdOf(x, o) == id && !Raises(x, Ingested(x, init), o) {
        RowReflectsOneMore(x, Ingested(x, init), o, Occurrences(x, init, id));
        assert Occurrences(x, history, id) == Occurrences(x, init, id) + [o];
      } else {
        assert Occurrences(x, history, id) == Occurrences(x, init, id);
      }
    }
  }

  lemma RowReflectsOneMore(x: Tools, t: Index, o: Occurrence, seen: seq<Occurrence>)
    requires DigestsAreInjective(x)
    requires IdOf(x, o) in t.events <==> seen != []
    requires seen != [] ==> Reflects(x, t.events[IdOf(x, o)], seen)
    ensures Reflects(x, RowAfter(x, t, o), seen + [o])
  {
    StrLessIsStrictOrder();
    var base := if seen == [] then [] else t.events[IdOf(x, o)].evidence;
    SortedUnionCorrect(base, o.input.evidence, StrLess);
    forall v ensures CitedIn(seen + [o], v) <==> CitedIn(seen, v) || v in o.input.evidence {
      OneMoreCitation(seen, o, v);
    }
  }

  lemma OneMoreCitation(seen: seq<Occurrence>, o: Occurrence, v: string)
    ensures CitedIn(seen + [o], v) <==> CitedIn(seen, v) || v in o.input.evidence
  {
    var all := seen + [o];
    assert all[|seen|] == o;
    if CitedIn(seen, v) {
      var k :| 0 <= k < |seen| && v in seen[k].input.evidence;
      assert all[k] == seen[k];
    }
  }

  /** Two observations share a row exactly when they have one program and one identity. */
  lemma SameRowMeansSameIdentity(x: Tools, a: Occurrence, b: Occurrence)
    requires DigestsAreInjective(x)
    ensures IdOf(x, a) == IdOf(x, b) <==> a.programId == b.programId && IdentityOf(x, a.input) == IdentityOf(x, b.input)
  {
  }

  // ---------------------------------------------------------------- planner jobs

  /** The k-th ingestion asks for a planner and gets through. */
  ghost predicate Asks(x: Tools, history: seq<Occurrence>, k: nat)
    requires k < |history|
  {
    ShouldQueue(x, Ingested(x, history[..k]), history[k]) && history[k].packetFits
  }

  /**
    There is at most one planner job per event, payload and provider, whatever the history does,
    payloads flapping back and forth included; and each job answers an occurrence that asked for one.
  */
  lemma {:induction false} PlannerJobsAreUnique(x: Tools, history: seq<Occurrence>)
    ensures NoDuplicates(Ingested(x, history).jobs)
    ensures forall key <- Ingested(x, history).jobs ::
      exists k | 0 <= k < |history| :: KeyOf(x, history[k]) == key && Asks(x, history, k)
  {
    if history != [] {
      var n := |history| - 1;
      var init := history[..n];
      PlannerJobsAreUnique(x, init);
      forall key | key in Ingested(x, history).jobs
        ensures exists k | 0 <= k < |history| :: KeyOf(x, history[k]) == key && Asks(x, history, k)
      {
        if key in Ingested(x, init).jobs {
          var k :| 0 <= k < n && KeyOf(x, init[k]) == key && Asks(x, init, k);
          assert history[..k] == init[..k] && history[k] == init[k];
          assert Asks(x, history, k);
        } else {
          assert KeyOf(x, history[n]) == key && Asks(x, history, n);
        }
      }
    }
  }

  lemma RequestsAreQueued(x: Tools, init: seq<Occurrence>, o: Occurrence)
    ensures Ingested(x, init).jobs <= Ingested(x, init + [o]).jobs
    ensures ShouldQueue(x, Ingested(x, init), o) && o.packetFits ==> KeyOf(x, o) in Ingested(x, init + [o]).jobs
  {
    assert (init + [o])[..|init|] == init;
  }

  /** Every occurrence that asked for a planner and got through has its job, for ever. */
  lemma {:induction false} EveryRequestHasItsJob(x: Tools, history: seq<Occurrence>, k: nat)
    requires k < |history| && Asks(x, history, k)
    ensures KeyOf(x, history[k]) in Ingested(x, history).jobs
  {
    var init, last := history[..|history| - 1], history[|history| - 1];
    assert history == init + [last];
    RequestsAreQueued(x, init, last);
    if k < |init| {
      assert init[..k] == history[..k];
      EveryRequestHasItsJob(x, init, k);
    } else {
      assert history[..k] == init;
    }
  }

  /** Seeing an event again with the payload it last had queues nothing. */
  lemma UnchangedIngestQueuesNothing(x: Tools, history: seq<Occurrence>, o: Occurrence)
    requires DigestsAreInjective(x)
    requires Occurrences(x, history, IdOf(x, o)) != []
    requires var seen := Occurrences(x, history, IdOf(x, o));
      x.redact(seen[|seen| - 1].input.payload) == x.redact(o.input.payload)
    ensures !ShouldQueue(x, Ingested(x, history), o)
    ensures Ingested(x, history + [o]).jobs == Ingested(x, history).jobs
  {
    IndexReflectsHistory(x, history, IdOf(x, o));
    assert (history + [o])[..|history|] == history;
  }
}
