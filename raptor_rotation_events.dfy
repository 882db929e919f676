/** The Raptor Rotation teacher's view: today's requests for the students in
    that teacher's RR group, whatever teacher made them. The stored teacher
    id and today's UTC day are parameters. */
module RaptorRotationEvents {
  import opened Common
  import opened Calendar
  import opened Sessions

  /** The `todaysRequests` predicate; the request status is not read. */
  predicate ForRRToday(r: Session, teacherId: Option<int>, today: Date) {
    r.date == today && r.student.rrTeacherId.Some? && teacherId.Some? &&
    r.student.rrTeacherId.value == teacherId.value
  }

  function TodaysRequests(requests: seq<Session>, teacherId: Option<int>, today: Date): (r: seq<Session>)
    ensures forall x :: x in r <==> x in requests && ForRRToday(x, teacherId, today)
    ensures |r| <= |requests|
  {
    Filter((x: Session) => ForRRToday(x, teacherId, today), requests)
  }

  /** The view keeps the list's order: the requests of a longer list come
      after those of its prefix. */
  lemma TodaysRequestsKeepsOrder(a: seq<Session>, b: seq<Session>, teacherId: Option<int>, today: Date)
    ensures TodaysRequests(a + b, teacherId, today) == TodaysRequests(a, teacherId, today) + TodaysRequests(b, teacherId, today)
  {
    FilterAppend((x: Session) => ForRRToday(x, teacherId, today), a, b);
  }

  /** A cancelled request of today still shows: cancelling changes nothing
      in this view. */
  lemma {:induction false} CancelledStillShown(requests: seq<Session>, id: Id, teacherId: Option<int>, today: Date)
    ensures |TodaysRequests(MarkCancelled(requests, id), teacherId, today)| == |TodaysRequests(requests, teacherId, today)|
  {
    if requests != [] {
      var m := MarkCancelled(requests, id);
      assert m[1..] == MarkCancelled(requests[1..], id);
      CancelledStillShown(requests[1..], id, teacherId, today);
    }
  }
}
