/** One ingestion, told in the fields of the observation and of the row, and when it calls for a planner. */
module EventMeaning {
  import opened Common
  import opened Events

  /** The row of an observation, and the hash of its payload. */
  lemma RowAndHash(x: Tools, o: Occurrence)
    ensures IdOf(x, o).0 == o.programId
    ensures IdOf(x, o).1 == x.identityDigest(
      Identity(x.lower(o.input.source), x.upper(o.input.eventType),
               x.lower(x.strip(x.sanitizeAsset(o.input.asset))), x.templateId(o.input.payload)))
    ensures PayloadHash(x, o.input) == x.digest(x.redact(o.input.payload))
  {
  }

  /**
    An ingestion calls for a planner exactly when the program wants one, the score reaches its
    threshold, the event is new or its payload changed, and this payload is not the one last queued.
  */
  lemma CallsForPlanner(x: Tools, t: Index, o: Occurrence)
    ensures
      var id, hash := IdOf(x, o), x.digest(x.redact(o.input.payload));
      var changed := id in t.events && t.events[id].payloadHash != hash;
      ShouldQueue(x, t, o) <==>
        && o.llm.enabled && x.score(o.input, id !in t.events, changed) >= o.llm.triggerScore
        && (id !in t.events || (changed && t.events[id].llmQueuedHash != Some(hash)))
  {
  }

  /** The row an ingestion leaves, column by column. */
  lemma RowAfterIngestion(x: Tools, t: Index, o: Occurrence)
    ensures
      var e, id, hash := o.input, IdOf(x, o), x.digest(x.redact(o.input.payload));
      var row, known := RowAfter(x, t, o), id in t.events;
      var changed := known && t.events[id].payloadHash != hash;
      && row.asset == x.sanitizeAsset(e.asset) && row.severity == x.lower(e.severity) && row.confidence == e.confidence
      && row.score == x.score(e, !known, changed)
      && row.payloadHash == hash
      && (!known || changed ==> row.payload == x.redact(e.payload))
      && (known && !changed ==> row.payload == t.events[id].payload)
      && (known ==> row.source == t.events[id].source && row.eventType == t.events[id].eventType)
      && (!known ==> row.source == e.source && row.eventType == x.upper(e.eventType))
      && (row.status.LlmQueued? <== ShouldQueue(x, t, o))
      && (!ShouldQueue(x, t, o) ==>
            row.status == if !known then Observed else if changed then Changed else t.events[id].status)
      && row.llmQueuedHash ==
         if ShouldQueue(x, t, o) then Some(hash) else if known then t.events[id].llmQueuedHash else None
  {
  }

  lemma EvidenceAfterIngestion(x: Tools, t: Index, o: Occurrence)
    requires IdOf(x, o) in t.events ==> Ascending(t.events[IdOf(x, o)].evidence, StrLess)
    ensures Ascending(RowAfter(x, t, o).evidence, StrLess)
    ensures forall v :: v in RowAfter(x, t, o).evidence <==>
      v in o.input.evidence || (IdOf(x, o) in t.events && v in t.events[IdOf(x, o)].evidence)
  {
    StrLessIsStrictOrder();
    var base := if IdOf(x, o) in t.events then t.events[IdOf(x, o)].evidence else [];
    SortedUnionCorrect(base, o.input.evidence, StrLess);
  }

  lemma JobsAfterIngestion(x: Tools, t: Index, o: Occurrence, key: PlannerKey)
    ensures t.jobs <= JobsAfter(x, t, o)
    ensures key in JobsAfter(x, t, o) <==>
      || key in t.jobs
      || (ShouldQueue(x, t, o)
          && key == PlannerKey(IdOf(x, o), x.digest(x.redact(o.input.payload)), o.llm.plannerProvider))
  {
  }

  // ---------------------------------------------------------------- over a history

  /** The redacted payload for which a planner was last queued for the event. */
  ghost function LastAsked(x: Tools, history: seq<Occurrence>, id: EventId): Option<string> {
    if history == [] then None
    else
      var n := |history| - 1;
      if IdOf(x, history[n]) == id && Asks(x, history, n) then Some(x.redact(history[n].input.payload))
      else LastAsked(x, history[..n], id)
  }

  lemma {:induction false} QueuedHashIsLastAsked(x: Tools, history: seq<Occurrence>, id: EventId)
    ensures id !in Ingested(x, history).events ==> LastAsked(x, history, id).None?
    ensures id in Ingested(x, history).events ==>
      Ingested(x, history).events[id].llmQueuedHash ==
        match LastAsked(x, history, id)
        case None => None
        case Some(payload) => Some(x.digest(payload))
  {
    if history != [] {
      QueuedHashIsLastAsked(x, history[..|history| - 1], id);
    }
  }

  /**
    Against the history: a new occurrence calls for a planner exactly when the program wants one, the
    score reaches its threshold, and its redacted payload is neither the one the event last had nor the
    one a planner was last queued for.
  */
  lemma CallsForPlannerExactlyWhen(x: Tools, history: seq<Occurrence>, o: Occurrence)
    requires DigestsAreInjective(x)
    ensures
      var seen, payload := Occurrences(x, history, IdOf(x, o)), x.redact(o.input.payload);
      var changed := seen != [] && x.redact(seen[|seen| - 1].input.payload) != payload;
      ShouldQueue(x, Ingested(x, history), o) <==>
        && o.llm.enabled && x.score(o.input, seen == [], changed) >= o.llm.triggerScore
        && (seen == [] || (changed && LastAsked(x, history, IdOf(x, o)) != Some(payload)))
  {
    IndexReflectsHistory(x, history, IdOf(x, o));
    QueuedHashIsLastAsked(x, history, IdOf(x, o));
    CallsForPlanner(x, Ingested(x, history), o);
  }
}
