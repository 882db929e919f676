/** The dashboard's request list: which requests it shows for the logged-in
    teacher under the optional date filter and search box, and on which rows
    it offers the cancel button. The stored teacher name and id and the
    current time are parameters. */
module TutoringRequestList {
  import opened Common
  import opened Calendar
  import opened Sessions
  import TutoringRoutes

  /** The two filter controls: the date picker (null when cleared) and the search box. */
  datatype Filters = Filters(filterDate: Option<Date>, searchTerm: string)

  /** `request.Student?.name?.toLowerCase() || ''` */
  function StudentNameLower(r: Session): string {
    Lower(r.student.name.GetOr(""))
  }

  /** The `filteredRequests` predicate. A request's date is read as local
      midnight of that day and compared with the current instant. */
  predicate Shown(r: Session, teacherName: string, f: Filters, now: Instant) {
    if r.status == Cancelled then false
    else if !TeacherNamed(r, teacherName) then false
    else if f.filterDate.Some? && r.date != f.filterDate.value then false
    else if f.searchTerm != "" then Contains(StudentNameLower(r), Lower(f.searchTerm))
    else !InstantBefore(Midnight(r.date), now)
  }

  function FilteredRequests(requests: seq<Session>, teacherName: string, f: Filters, now: Instant): (r: seq<Session>)
    ensures forall x :: x in r <==> x in requests && Shown(x, teacherName, f, now)
    ensures forall x :: x in r ==> x.status != Cancelled && TeacherNamed(x, teacherName)
    ensures forall x :: x in r && f.filterDate.Some? ==> x.date == f.filterDate.value
  {
    Filter((x: Session) => Shown(x, teacherName, f, now), requests)
  }

  /** With a search term, a request of the teacher's that passes the date
      filter is shown exactly when its lowercased student name contains the
      lowercased term, whether it is past or not. */
  lemma SearchSkipsFutureCheck(r: Session, teacherName: string, f: Filters, now: Instant)
    requires r.status != Cancelled && TeacherNamed(r, teacherName)
    requires f.filterDate.None? || f.filterDate.value == r.date
    requires f.searchTerm != ""
    ensures Shown(r, teacherName, f, now) <==> Contains(StudentNameLower(r), Lower(f.searchTerm))
  {
  }

  /** Without a search term, only requests whose day starts at or after the
      current instant are shown: a past day never, and the current day only
      while the clock reads midnight exactly. */
  lemma FutureOnlyWithoutSearch(r: Session, teacherName: string, f: Filters, now: Instant)
    requires f.searchTerm == ""
    ensures DateBefore(r.date, now.date) ==> !Shown(r, teacherName, f, now)
    ensures r.date == now.date && 0 < now.millis ==> !Shown(r, teacherName, f, now)
    ensures r.status != Cancelled && TeacherNamed(r, teacherName) && f.filterDate.None? ==>
      (Shown(r, teacherName, f, now) <==> !DateBefore(r.date, now.date) && (r.date == now.date ==> now.millis == 0))
  {
  }

  /** The search ignores case on both sides: an upper-case term finds the same rows. */
  lemma {:induction false} SearchIgnoresCase(requests: seq<Session>, teacherName: string, f: Filters, now: Instant)
    ensures FilteredRequests(requests, teacherName, f.(searchTerm := Lower(f.searchTerm)), now) ==
            FilteredRequests(requests, teacherName, f, now)
  {
    LowerIdempotent(f.searchTerm);
    if requests != [] {
      SearchIgnoresCase(requests[1..], teacherName, f, now);
    }
  }

  /** The cancel button: an active request whose teacher id equals the
      logged-in teacher's (`parseInt` of the stored id; None when it does
      not parse). */
  function CancelOffered(r: Session, teacherId: Option<int>): (offered: bool)
    ensures offered ==> r.status == Active && r.teacher.Some? && teacherId == Some(r.teacher.value.id)
    ensures r.status != Active || teacherId.None? ==> !offered
  {
    r.status == Active && r.teacher.Some? && teacherId.Some? && r.teacher.value.id == teacherId.value
  }

  /** A cancel the list offers is one the server grants: if the row the list
      shows is the server's booking with that id and owner, the cancel route
      answers 200 for the logged-in teacher. */
  lemma OfferedCancelIsAuthorized(db: TutoringRoutes.Db, r: Session, callerId: Id, i: nat)
    requires TutoringRoutes.Consistent(db)
    requires i < |db.rows| && db.rows[i].id == r.id
    requires r.teacher.Some? && db.rows[i].teacherId == r.teacher.value.id
    requires CancelOffered(r, Some(callerId))
    ensures TutoringRoutes.Cancel(db, callerId, r.id).response.CancelOk?
    ensures TutoringRoutes.Cancel(db, callerId, r.id).response.StatusCode() == 200
  {
    TutoringRoutes.CancelOwnership(db, callerId, i);
  }
}
