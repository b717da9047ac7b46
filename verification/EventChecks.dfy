/** Which of the events the commands record pass the validation of the memory stream. */
module EventChecks {
  import opened Wrappers
  import opened Json
  import opened Ulid
  import opened Projector
  import opened FactRecord
  import EventLog
  import EntityGraph
  import Provenance

  /** Recorded at a time that is a date. */
  predicate Dated(isDate: string -> bool, at: string) {
    at != "" && isDate(at)
  }

  /**
   * A fact that passed its own checks is appended if and only if its observation time is a date and its actor is
   * well formed: the fact store asks only for a time that is not empty, and does not look at the actor.
   */
  lemma FactEventPasses(isDate: string -> bool, i: FactInput, id: string, eventId: string, supersedes: Option<string>, recordedAt: string)
    requires Validate(i).None? && IsUlid(id) && IsUlid(eventId) && Dated(isDate, recordedAt)
    ensures
      var p := EventLog.Problem(isDate, EventLog.Draft(EventFor(i, id, eventId, supersedes), recordedAt));
      && (p.None? <==> Dated(isDate, i.observedAt) && EventLog.IsActor(i.actor))
      && (!Dated(isDate, i.observedAt) ==> p == Some("occurred_at"))
      && (Dated(isDate, i.observedAt) && !EventLog.IsActor(i.actor) ==> p == Some("actor"))
  {
    hide IsUlid, EventLog.IsActor, Validate;
    ValidateFirst(i);
    EventLog.ProblemFirst(isDate, EventLog.Draft(EventFor(i, id, eventId, supersedes), recordedAt));
  }

  /** The actors the commands name themselves are well formed; so are a named skill and a named sidecar. */
  lemma KnownActors()
    ensures EventLog.IsActor("cli") && EventLog.IsActor("human")
    ensures EventLog.IsActor("skill:distill-9") && EventLog.IsActor("sidecar:z")
    ensures !EventLog.IsActor("") && !EventLog.IsActor("skill:") && !EventLog.IsActor("skill:-a") && !EventLog.IsActor("skill:A")
  {
    assert "skill:distill-9"[6..] == "distill-9" && "sidecar:z"[8..] == "z";
    assert "skill:"[6..] == "" && "skill:-a"[6..] == "-a" && "skill:A"[6..] == "A";
    assert "-a"[0] == '-' && "A"[0] == 'A';
    assert "skill:"[1] == 'k' && "sidecar:"[1] == 'i';
    assert !("sidecar:" <= "skill:-a") && !("sidecar:" <= "skill:A") && !("sidecar:" <= "skill:");
  }

  /** A merge of two entities, a composed output and an accepted distillation are appended whenever their time is a date. */
  lemma CommandEventsPass(isDate: string -> bool, eventId: string, id: string, other: string, title: string, sources: seq<string>,
                          payload: Object, at: string, recordedAt: string)
    requires IsUlid(eventId) && IsUlid(id) && IsUlid(other) && Dated(isDate, at) && Dated(isDate, recordedAt)
    ensures EventLog.Problem(isDate, EventLog.Draft(EntityGraph.MergeEvent(id, other, eventId, at, "cli"), recordedAt)).None?
    ensures EventLog.Problem(isDate, EventLog.Draft(Provenance.NoteCreated(eventId, id, title, sources, at), recordedAt)).None?
    ensures EventLog.Problem(isDate, EventLog.Draft(Provenance.DistillationAccepted(eventId, id, other, payload, at), recordedAt)).None?
  {
    hide IsUlid, EventLog.IsActor, EventLog.Problem;
    KnownActors();
    EventLog.ProblemFirst(isDate, EventLog.Draft(EntityGraph.MergeEvent(id, other, eventId, at, "cli"), recordedAt));
    EventLog.ProblemFirst(isDate, EventLog.Draft(Provenance.NoteCreated(eventId, id, title, sources, at), recordedAt));
    EventLog.ProblemFirst(isDate, EventLog.Draft(Provenance.DistillationAccepted(eventId, id, other, payload, at), recordedAt));
  }
}
