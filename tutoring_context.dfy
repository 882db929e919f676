/** The tutoring context: the client's in-memory list of sessions, kept in
    step with the server by appending what a creation returns and marking
    what a cancellation names. The network calls are parameters: each
    method receives the outcome its API call had. */
module TutoringContext {
  import opened Common
  import opened Calendar
  import opened Sessions
  import ApiService

  /** The data posted to create a session. */
  datatype SessionPayload = SessionPayload(
    studentId: Id,
    date: Date,
    lunches: Lunches,
    priority: Option<int>,
    conflictReason: Option<string>)

  /** How an API call ended: the response body, or the rejected request. */
  datatype ApiOutcome<T> = Resolved(value: T) | Rejected(error: ApiService.RequestError)

  /** What a context operation returns, or the message of the Error it throws. */
  datatype Result<T> = Ok(value: T) | Thrown(message: string)

  /** The reply of the cancel route, `{msg, request}`. */
  datatype CancelReply = CancelReply(msg: string)

  /** `getSessionsForStudent`: the student's active sessions, in list order. */
  function SessionsForStudent(sessions: seq<Session>, studentId: Id): (r: seq<Session>)
    ensures forall s :: s in r <==> s in sessions && s.student.id == studentId && s.status == Active
  {
    Filter((s: Session) => s.student.id == studentId && s.status == Active, sessions)
  }

  /** A cancelled session never reaches the picker, and no session of another student does. */
  lemma SessionsForStudentAfterCancel(sessions: seq<Session>, studentId: Id, id: Id, s: Session)
    requires s in SessionsForStudent(MarkCancelled(sessions, id), studentId)
    ensures s.id != id && s in sessions
  {
    var m := MarkCancelled(sessions, id);
    var k :| 0 <= k < |m| && m[k] == s;
  }

  function OverrideConflictReason(teacherName: string): string {
    "Overriden by " + teacherName + " due to priority day."
  }

  class Store {
    var sessions: seq<Session>

    constructor ()
      ensures sessions == []
    {
      sessions := [];
    }

    /** `createSession`: on success the new session is appended and returned;
        on failure the list is untouched and the formatted message is thrown. */
    method CreateSession(payload: SessionPayload, outcome: ApiOutcome<Session>) returns (r: Result<Session>)
      modifies this
      ensures outcome.Resolved? ==> sessions == old(sessions) + [outcome.value] && r == Ok(outcome.value)
      ensures outcome.Rejected? ==>
        sessions == old(sessions) && r == Thrown(ApiService.FormatError(outcome.error))
    {
      match outcome
      case Resolved(newSession) =>
        sessions := sessions + [newSession];
        r := Ok(newSession);
      case Rejected(e) =>
        r := Thrown(ApiService.FormatError(e));
    }

    /** `cancelSession`: on success the session with that id is marked
        cancelled; on failure the list is untouched and the message thrown. */
    method CancelSession(id: Id, outcome: ApiOutcome<CancelReply>) returns (r: Result<CancelReply>)
      modifies this
      ensures outcome.Resolved? ==> sessions == MarkCancelled(old(sessions), id) && r == Ok(outcome.value)
      ensures outcome.Rejected? ==>
        sessions == old(sessions) && r == Thrown(ApiService.FormatError(outcome.error))
    {
      match outcome
      case Resolved(reply) =>
        sessions := MarkCancelled(sessions, id);
        r := Ok(reply);
      case Rejected(e) =>
        r := Thrown(ApiService.FormatError(e));
    }

    /** `createOverrideSession`: cancel the holder's session first and, only if
        that succeeded, create the new one with priority 1 and a reason naming
        the overriding teacher. `sent` is the payload of the creation call, if
        it was made. */
    method CreateOverrideSession(
      payload: SessionPayload, existingId: Id, teacherName: string,
      cancelOutcome: ApiOutcome<CancelReply>, createOutcome: ApiOutcome<Session>)
      returns (r: Result<Session>, sent: Option<SessionPayload>)
      modifies this
      ensures cancelOutcome.Rejected? ==>
        sent.None? && sessions == old(sessions) &&
        r == Thrown(ApiService.FormatError(cancelOutcome.error))
      ensures cancelOutcome.Resolved? ==>
        sent == Some(payload.(priority := Some(1), conflictReason := Some(OverrideConflictReason(teacherName)))) &&
        (createOutcome.Resolved? ==>
           sessions == MarkCancelled(old(sessions), existingId) + [createOutcome.value] &&
           r == Ok(createOutcome.value)) &&
        (createOutcome.Rejected? ==>
           sessions == MarkCancelled(old(sessions), existingId) &&
           r == Thrown(ApiService.FormatError(createOutcome.error)))
    {
      var cancelled := CancelSession(existingId, cancelOutcome);
      if cancelled.Thrown? {
        return Thrown(cancelled.message), None;
      }
      var newSessionData := payload.(priority := Some(1), conflictReason := Some(OverrideConflictReason(teacherName)));
      sent := Some(newSessionData);
      r := CreateSession(newSessionData, createOutcome);
    }
  }
}
