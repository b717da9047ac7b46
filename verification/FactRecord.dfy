/** Recording a fact: the input checks, the row and the memory event that carries it. */
module FactRecord {
  import opened Wrappers
  import opened Text
  import opened Json
  import opened Projector
  import opened Ulid

  /** The caller's fields, with `captured_at` already defaulted to the current time when it was absent. */
  datatype FactInput = FactInput(
    statement: string, sourceRef: string, observedAt: string, confidence: Double, capturedAt: string, actor: string)

  datatype FactError =
    | InvalidStatement | InvalidSourceRef | InvalidObservedAt | InvalidConfidence | InvalidSupersedes
    | StoreUnavailable | SupersedeTargetNotFound | EventAppendFailed | ProjectionWriteFailed

  /** The first problem `validateFactInput` finds. It does not look at `captured_at`. */
  function Validate(i: FactInput): Option<FactError> {
    if Blank(i.statement, JsSpace) then Some(InvalidStatement)
    else if !IsUlid(i.sourceRef) then Some(InvalidSourceRef)
    else if i.observedAt == "" then Some(InvalidObservedAt)
    else if ValueOf(i.confidence) < 0.0 || ValueOf(i.confidence) > 1.0 then Some(InvalidConfidence)
    else None
  }

  /** Which check fails first, and that a confidence from 0 to 1, both included, passes the last. */
  lemma ValidateFirst(i: FactInput)
    ensures Validate(i) == Some(InvalidStatement) <==> Blank(i.statement, JsSpace)
    ensures Validate(i) == Some(InvalidSourceRef) <==> !Blank(i.statement, JsSpace) && !IsUlid(i.sourceRef)
    ensures Validate(i) == Some(InvalidObservedAt) <==> !Blank(i.statement, JsSpace) && IsUlid(i.sourceRef) && i.observedAt == ""
    ensures Validate(i).None? <==>
              !Blank(i.statement, JsSpace) && IsUlid(i.sourceRef) && i.observedAt != "" && 0.0 <= ValueOf(i.confidence) <= 1.0
    ensures Validate(i).Some? ==> Validate(i).value in {InvalidStatement, InvalidSourceRef, InvalidObservedAt, InvalidConfidence}
  {
    hide IsUlid, Blank, ValueOf;
  }

  /** The row a record inserts. */
  function FactFor(i: FactInput, id: string, supersedes: Option<string>): Fact {
    Fact(id, i.statement, i.sourceRef, i.capturedAt, i.observedAt, i.confidence, supersedes)
  }

  /** The event a record appends. */
  function EventFor(i: FactInput, id: string, eventId: string, supersedes: Option<string>): Event {
    var fields := map[
      "statement" := JString(i.statement), "source_ref" := JString(i.sourceRef),
      "captured_at" := JString(i.capturedAt), "observed_at" := JString(i.observedAt),
      "confidence" := JNumber(i.confidence)];
    Event(eventId, MemoryStream, if supersedes.Some? then "fact_superseded" else "fact_added",
          i.observedAt, i.actor, id, Some(i.sourceRef),
          Some(if supersedes.Some? then fields["supersedes" := JString(supersedes.value)] else fields))
  }

  // ---------------------------------------------------------------- reading an event without checks

  function NumberOr(o: Object, field: string): Double {
    if field in o && o[field].JNumber? then o[field].n else ZERO
  }

  /** The fact an event speaks of, absent fields read as empty. */
  function Raw(e: Event): Fact {
    var p := PayloadOf(e);
    Fact(e.subjectId, TextOr(p, "statement"), TextOr(p, "source_ref"), TextOr(p, "captured_at"),
         TextOr(p, "observed_at"), NumberOr(p, "confidence"),
         if "supersedes" in p && p["supersedes"].JString? then Some(p["supersedes"].s) else None)
  }

  lemma FactOfIsRaw(e: Event)
    ensures FactOf(e).Ok? ==> FactOf(e).value == Raw(e)
  {
  }

  /**
   * A recorded event carries the ids, the actor, the source and the time of observation it was recorded with.
   * Replaying it gives back the very row that was inserted live, exactly when `captured_at` is not empty; otherwise the replay rejects the event, although validation let it through.
   */
  lemma RecordedReplays(i: FactInput, id: string, eventId: string, supersedes: Option<string>)
    requires Validate(i).None?
    ensures
      var e := EventFor(i, id, eventId, supersedes);
      && IsFactEvent(e) && Raw(e) == FactFor(i, id, supersedes)
      && e.kind == (if supersedes.None? then "fact_added" else "fact_superseded")
      && e.eventId == eventId && e.subjectId == id && e.sourceRef == Some(i.sourceRef)
      && e.occurredAt == i.observedAt && e.actor == i.actor
      && (FactOf(e) == Ok(FactFor(i, id, supersedes)) <==> i.capturedAt != "")
      && (FactOf(e) == Err(InvalidEvent(eventId, "captured_at")) <==> i.capturedAt == "")
  {
    var p := PayloadOf(EventFor(i, id, eventId, supersedes));
    assert i.statement != "";
    assert p["statement"].s == i.statement && p["source_ref"].s == i.sourceRef;
  }
}
