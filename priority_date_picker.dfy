/** The date picker that repeats the server's priority rule on the client:
    which days a teacher may pick for a student, and which status chip to
    show for a picked day. "Yesterday", the selected student, the loaded
    teacher and the context's session list are parameters. */
module PriorityDatePicker {
  import opened Common
  import opened Calendar
  import opened Sessions
  import TutoringContext
  import TutoringRoutes

  /** `SUBJECT_PRIORITIES`: a plain object, so its keys are strings. */
  const SubjectPriorities: map<string, string> :=
    map["1" := "CS", "2" := "Math", "4" := "Humanities", "5" := "Science"]

  /** A property read on `SUBJECT_PRIORITIES`; a missing key reads as undefined. */
  function PriorityLookup(key: string): (s: Option<string>)
    ensures s.Some? ==> |key| == 1
  {
    if key in SubjectPriorities then Some(SubjectPriorities[key]) else None
  }

  /** The property key a weekday number becomes. */
  function WeekdayKey(w: int): (k: string)
    requires 0 <= w < 7
    ensures |k| == 1 && IsDigit(k[0])
  {
    [(48 + w) as char]
  }

  /** The client table agrees with the server's on every day, tutoring day or not. */
  lemma PickerTableMatchesServer(date: Date)
    ensures PriorityLookup(WeekdayKey(DayOfWeek(date))) == TutoringRoutes.PrioritySubjectForDay(date)
  {
  }

  /** No session before position `k` falls on `date`. */
  predicate NoneOnBefore(sessions: seq<Session>, k: int, date: Date)
    requires k <= |sessions|
  {
    forall j :: 0 <= j < k ==> sessions[j].date != date
  }

  /** `studentSessions.find(session => isSameDay(new Date(session.date), date))`:
      the first session on that day. */
  function FindSessionOn(sessions: seq<Session>, date: Date): (r: Option<Session>)
    ensures r.Some? ==> r.value in sessions && r.value.date == date
    ensures r.Some? ==> exists k :: 0 <= k < |sessions| && sessions[k] == r.value && NoneOnBefore(sessions, k, date)
    ensures r.None? ==> forall s :: s in sessions ==> s.date != date
  {
    if sessions == [] then None
    else if sessions[0].date == date then Some(sessions[0])
    else
      var r := FindSessionOn(sessions[1..], date);
      if r.Some? then
        var k :| 0 <= k < |sessions[1..]| && sessions[1..][k] == r.value && NoneOnBefore(sessions[1..], k, date);
        assert sessions[k + 1] == r.value;
        r
      else r
  }

  /** `studentId ? getSessionsForStudent(studentId) : []` */
  function StudentSessions(sessions: seq<Session>, studentId: Option<Id>): seq<Session> {
    if studentId.None? then [] else TutoringContext.SessionsForStudent(sessions, studentId.value)
  }

  /** The student holds an active session on `date`. */
  predicate BookedOn(sessions: seq<Session>, studentId: Id, date: Date) {
    exists s :: s in sessions && s.student.id == studentId && s.status == Active && s.date == date
  }

  /** `shouldDisableDate`: a past day, a day without tutoring, or a day the
      student is already booked on by a teacher whose subject does not hold
      that day's priority on the server. */
  function ShouldDisableDate(
    date: Date, yesterday: Instant, studentId: Option<Id>,
    teacher: Option<TeacherInfo>, sessions: seq<Session>): (disabled: bool)
    ensures disabled <==>
      InstantBefore(Midnight(date), yesterday) || BlockedWeekday(DayOfWeek(date)) ||
      (studentId.Some? && teacher.Some? && BookedOn(sessions, studentId.value, date) &&
       !TutoringRoutes.HasSubjectPriority(teacher.value.subject, date))
  {
    var dayOfWeek := DayOfWeek(date);
    if InstantBefore(Midnight(date), yesterday) then true
    else if BlockedWeekday(dayOfWeek) then true
    else if studentId.None? || teacher.None? then false
    else match FindSessionOn(StudentSessions(sessions, studentId), date)
      case None => false
      case Some(_) =>
        PickerTableMatchesServer(date);
        PriorityLookup(WeekdayKey(dayOfWeek)) != Some(teacher.value.subject)
  }

  /** A day before yesterday is disabled. */
  lemma PastDayDisabled(date: Date, yesterday: Instant, studentId: Option<Id>, teacher: Option<TeacherInfo>, sessions: seq<Session>)
    requires DateBefore(date, yesterday.date)
    ensures ShouldDisableDate(date, yesterday, studentId, teacher, sessions)
  {
  }

  /** Sundays, Wednesdays and Saturdays are disabled whoever picks. */
  lemma BlockedWeekdayDisabled(date: Date, yesterday: Instant, studentId: Option<Id>, teacher: Option<TeacherInfo>, sessions: seq<Session>)
    requires BlockedWeekday(DayOfWeek(date))
    ensures ShouldDisableDate(date, yesterday, studentId, teacher, sessions)
  {
  }

  /** On a tutoring day that is not past, a day is enabled when no student
      is selected, when no teacher is loaded, or when the student has no
      active session that day; with such a session, it is enabled exactly
      when the server would grant the teacher priority. */
  lemma EnabledDays(date: Date, yesterday: Instant, studentId: Option<Id>, teacher: Option<TeacherInfo>, sessions: seq<Session>)
    requires !InstantBefore(Midnight(date), yesterday)
    requires !BlockedWeekday(DayOfWeek(date))
    ensures studentId.None? || teacher.None? ==> !ShouldDisableDate(date, yesterday, studentId, teacher, sessions)
    ensures studentId.Some? && teacher.Some? ==>
      (ShouldDisableDate(date, yesterday, studentId, teacher, sessions) <==>
         BookedOn(sessions, studentId.value, date) && !TutoringRoutes.HasSubjectPriority(teacher.value.subject, date))
  {
    if studentId.Some? && teacher.Some? {
      var mine := StudentSessions(sessions, studentId);
      match FindSessionOn(mine, date)
      case None =>
      case Some(s) =>
        assert s in sessions && s.student.id == studentId.value && s.status == Active && s.date == date;
    }
  }

  datatype DateStatus = Available | CanOverride(existing: Session) | Blocked(existing: Session)

  /** `getDateStatusInfo` as written: the table is read with the day's ISO
      string (`getDay` there returns `YYYY-MM-DD`), not with its weekday. */
  function GetDateStatusInfo(
    date: Option<Date>, studentId: Option<Id>, teacher: Option<TeacherInfo>,
    sessions: seq<Session>): (r: Option<DateStatus>)
    ensures r.None? <==> studentId.None? || date.None? || teacher.None?
    ensures r.Some? ==> (r.value.Available? <==> !BookedOn(sessions, studentId.value, date.value))
    ensures r.Some? && !r.value.Available? ==>
      r.value.existing in sessions && r.value.existing.student.id == studentId.value &&
      r.value.existing.status == Active && r.value.existing.date == date.value
  {
    if studentId.None? || date.None? || teacher.None? then None
    else
      var key := IsoDay(date.value);
      match FindSessionOn(StudentSessions(sessions, studentId), date.value)
      case None => Some(Available)
      case Some(existing) =>
        if PriorityLookup(key) == Some(teacher.value.subject) then Some(CanOverride(existing))
        else Some(Blocked(existing))
  }

  /** As written, the status never offers an override: a booked day always
      shows as blocked, even for the teacher with priority. */
  lemma {:induction false} StatusNeverOffersOverride(
    date: Option<Date>, studentId: Option<Id>, teacher: Option<TeacherInfo>, sessions: seq<Session>)
    ensures var r := GetDateStatusInfo(date, studentId, teacher, sessions);
      r.Some? ==> !r.value.CanOverride?
  {
    if date.Some? {
      assert PriorityLookup(IsoDay(date.value)).None?;
    }
  }

  /** A Monday booked by another teacher, picked by a CS teacher: the picker
      enables the day (the CS teacher can override) while the status chip
      reads "Already booked". */
  lemma StatusContradictsPicker()
    ensures var date := Ymd(2025, 10, 13);
      var student := StudentInfo(7, Some("Ada"), None);
      var cs := TeacherInfo(1, Some("Grace"), "CS");
      var other := TeacherInfo(2, Some("Alan"), "Math");
      var booked := Session(5, student, Some(other), date, Lunches(true, false, false, false), Active);
      var yesterday := Instant(Ymd(2025, 10, 12), 0);
      !ShouldDisableDate(date, yesterday, Some(7), Some(cs), [booked]) &&
      GetDateStatusInfo(Some(date), Some(7), Some(cs), [booked]) == Some(Blocked(booked))
  {
    var date := Ymd(2025, 10, 13);
    var student := StudentInfo(7, Some("Ada"), None);
    var other := TeacherInfo(2, Some("Alan"), "Math");
    var booked := Session(5, student, Some(other), date, Lunches(true, false, false, false), Active);
    assert TutoringContext.SessionsForStudent([booked], 7) == [booked];
    assert PriorityLookup(IsoDay(date)).None?;
  }

  /** The status chip as intended: the table read with the weekday, as
      `shouldDisableDate` reads it. */
  function GetDateStatusInfoByWeekday(
    date: Option<Date>, studentId: Option<Id>, teacher: Option<TeacherInfo>,
    sessions: seq<Session>): (r: Option<DateStatus>)
    ensures r.None? <==> studentId.None? || date.None? || teacher.None?
    ensures r.Some? ==> (r.value.Available? <==> !BookedOn(sessions, studentId.value, date.value))
    ensures r.Some? ==> (r.value.CanOverride? <==>
      BookedOn(sessions, studentId.value, date.value) &&
      TutoringRoutes.HasSubjectPriority(teacher.value.subject, date.value))
    ensures r.Some? && !r.value.Available? ==>
      r.value.existing in sessions && r.value.existing.student.id == studentId.value &&
      r.value.existing.status == Active && r.value.existing.date == date.value
  {
    if studentId.None? || date.None? || teacher.None? then None
    else
      PickerTableMatchesServer(date.value);
      var key := WeekdayKey(DayOfWeek(date.value));
      match FindSessionOn(StudentSessions(sessions, studentId), date.value)
      case None => Some(Available)
      case Some(existing) =>
        if PriorityLookup(key) == Some(teacher.value.subject) then Some(CanOverride(existing))
        else Some(Blocked(existing))
  }

  /** The intended chip agrees with the picker on every selectable day: it
      says blocked exactly when the picker disables the day, offers an
      override exactly when the student is booked and the picker still
      enables it, and the override it offers is what the server would grant. */
  lemma StatusByWeekdayAgreesWithPicker(
    date: Date, yesterday: Instant, studentId: Id, teacher: TeacherInfo, sessions: seq<Session>)
    requires !InstantBefore(Midnight(date), yesterday)
    requires !BlockedWeekday(DayOfWeek(date))
    ensures var r := GetDateStatusInfoByWeekday(Some(date), Some(studentId), Some(teacher), sessions);
      r.Some? &&
      (r.value.Blocked? <==> ShouldDisableDate(date, yesterday, Some(studentId), Some(teacher), sessions)) &&
      (r.value.CanOverride? ==> TutoringRoutes.HasSubjectPriority(teacher.subject, date))
  {
    PickerTableMatchesServer(date);
    var key := WeekdayKey(DayOfWeek(date));
    var found := FindSessionOn(StudentSessions(sessions, Some(studentId)), date);
    if found.Some? {
      assert ShouldDisableDate(date, yesterday, Some(studentId), Some(teacher), sessions)
         <==> PriorityLookup(key) != Some(teacher.subject);
    }
  }
}
