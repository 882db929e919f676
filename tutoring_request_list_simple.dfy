/** The compact list of the logged-in teacher's requests for today. The
    stored teacher name and today's UTC day are parameters. */
module TutoringRequestListSimple {
  import opened Common
  import opened Calendar
  import opened Sessions

  /** The `filteredRequests` predicate: not cancelled, the teacher's name
      (ignoring case), and dated today. */
  predicate ShownToday(r: Session, teacherName: string, today: Date) {
    if r.status == Cancelled then false
    else if !TeacherNamed(r, teacherName) then false
    else r.date == today
  }

  function TodaysRequests(requests: seq<Session>, teacherName: string, today: Date): (r: seq<Session>)
    ensures forall x :: x in r <==> x in requests && ShownToday(x, teacherName, today)
    ensures forall x :: x in r ==> x.status != Cancelled && TeacherNamed(x, teacherName) && x.date == today
  {
    Filter((x: Session) => ShownToday(x, teacherName, today), requests)
  }

  /** Cancelling a request in the list removes it from the compact view and
      leaves every other shown request where it was. */
  lemma {:induction false} CancelledLeavesView(requests: seq<Session>, id: Id, teacherName: string, today: Date)
    ensures TodaysRequests(MarkCancelled(requests, id), teacherName, today) ==
            Filter((x: Session) => x.id != id, TodaysRequests(requests, teacherName, today))
  {
    var keep := (x: Session) => x.id != id;
    var shown := (x: Session) => ShownToday(x, teacherName, today);
    if requests != [] {
      var m := MarkCancelled(requests, id);
      var head := if shown(requests[0]) then [requests[0]] else [];
      assert m[1..] == MarkCancelled(requests[1..], id);
      assert TodaysRequests(m, teacherName, today) ==
        (if shown(m[0]) then [m[0]] else []) + TodaysRequests(m[1..], teacherName, today);
      assert TodaysRequests(requests, teacherName, today) == head + TodaysRequests(requests[1..], teacherName, today);
      CancelledLeavesView(requests[1..], id, teacherName, today);
      FilterAppend(keep, head, TodaysRequests(requests[1..], teacherName, today));
      assert Filter(keep, head) == if shown(m[0]) then [m[0]] else [];
    }
  }
}
