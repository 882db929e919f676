/** The single-request form: the roster of students the logged-in teacher
    may request, the lunch checkboxes, and a submission that validates in a
    fixed order before posting. The teacher id read from local storage and
    the outcome of the post are parameters. */
module TutoringRequestForm {
  import opened Common
  import opened Calendar
  import ApiService

  /** A student as `GET /students` returns it, with its five home-room teacher ids. */
  datatype RosterStudent = RosterStudent(
    id: Id,
    name: string,
    r1Id: Option<Id>,
    r2Id: Option<Id>,
    rrId: Option<Id>,
    r4Id: Option<Id>,
    r5Id: Option<Id>)

  /** `student?.RxId === parseInt(teacherId)`; a teacher id that does not parse
      (NaN, modelled as None) equals nothing. */
  predicate SameTeacher(x: Option<Id>, teacherId: Option<int>) {
    x.Some? && teacherId.Some? && x.value == teacherId.value
  }

  predicate OnRoster(s: RosterStudent, teacherId: Option<int>) {
    SameTeacher(s.r1Id, teacherId) || SameTeacher(s.r2Id, teacherId) ||
    SameTeacher(s.r4Id, teacherId) || SameTeacher(s.r5Id, teacherId)
  }

  /** The roster filter of `fetchStudents`: the students for whom the teacher
      is the R1, R2, R4 or R5 teacher, in the API's order. */
  function Roster(students: seq<RosterStudent>, teacherId: Option<int>): (r: seq<RosterStudent>)
    ensures forall s :: s in r <==> s in students && OnRoster(s, teacherId)
  {
    Filter((s: RosterStudent) => OnRoster(s, teacherId), students)
  }

  /** The RR teacher plays no part in the roster. */
  lemma RosterIgnoresRR(students: seq<RosterStudent>, teacherId: Option<int>, s: RosterStudent, rr: Option<Id>)
    requires s in students && s.(rrId := rr) in students
    ensures s in Roster(students, teacherId) <==> s.(rrId := rr) in Roster(students, teacherId)
  {
  }

  const MissingStudent := "Please select a student"
  const MissingDate := "Please select a date"
  const MissingLunch := "Please select at least one lunch period"

  /** The validation chain of `handleSubmit`: the first failing check reports. */
  function Validate(student: Option<Id>, date: Option<Date>, lunches: Lunches): (err: Option<string>)
    ensures err.None? <==> student.Some? && date.Some? && lunches.Any()
    ensures student.None? ==> err == Some(MissingStudent)
    ensures student.Some? && date.None? ==> err == Some(MissingDate)
    ensures student.Some? && date.Some? && !lunches.Any() ==> err == Some(MissingLunch)
  {
    if student.None? then Some(MissingStudent)
    else if date.None? then Some(MissingDate)
    else if !lunches.Any() then Some(MissingLunch)
    else None
  }

  /** The body posted by the form. */
  datatype Payload = Payload(studentId: Id, date: Date, lunches: Lunches)

  /** How the post ended. */
  datatype PostOutcome = Posted | PostFailed(error: ApiService.RequestError)

  const SuccessMessage := "Student successfully requested for tutoring"

  class Form {
    var selectedStudent: Option<Id>
    var selectedDate: Option<Date>
    var lunches: Lunches
    var error: string
    var success: string

    constructor ()
      ensures selectedStudent == None && selectedDate == None && lunches == NoLunches
      ensures error == "" && success == ""
    {
      selectedStudent := None;
      selectedDate := None;
      lunches := NoLunches;
      error := "";
      success := "";
    }

    /** `handleLunchChange`: only the named period changes. */
    method HandleLunchChange(name: LunchName, checked: bool)
      modifies this
      ensures lunches.Get(name) == checked
      ensures forall m :: m != name ==> lunches.Get(m) == old(lunches).Get(m)
      ensures selectedStudent == old(selectedStudent) && selectedDate == old(selectedDate)
      ensures error == old(error) && success == old(success)
    {
      lunches := lunches.With(name, checked);
    }

    /** `handleSubmit`: a failing check reports its message and sends nothing;
        otherwise the payload is sent, and on success the form is reset
        (no student, no date, no lunch). `sent` is what was posted. */
    method HandleSubmit(outcome: PostOutcome) returns (sent: Option<Payload>)
      modifies this
      ensures Validate(old(selectedStudent), old(selectedDate), old(lunches)).Some? ==>
        sent.None? && error == Validate(old(selectedStudent), old(selectedDate), old(lunches)).value &&
        success == "" && selectedStudent == old(selectedStudent) &&
        selectedDate == old(selectedDate) && lunches == old(lunches)
      ensures Validate(old(selectedStudent), old(selectedDate), old(lunches)).None? ==>
        sent == Some(Payload(old(selectedStudent).value, old(selectedDate).value, old(lunches)))
      ensures sent.Some? ==> sent.value.lunches.Any()
      ensures sent.Some? && outcome.Posted? ==>
        selectedStudent == None && selectedDate == None && lunches == NoLunches &&
        success == SuccessMessage && error == ""
      ensures sent.Some? && outcome.PostFailed? ==>
        error == ApiService.FormatError(outcome.error) && success == "" &&
        selectedStudent == old(selectedStudent) && selectedDate == old(selectedDate) && lunches == old(lunches)
    {
      error := "";
      success := "";
      var invalid := Validate(selectedStudent, selectedDate, lunches);
      if invalid.Some? {
        error := invalid.value;
        return None;
      }
      sent := Some(Payload(selectedStudent.value, selectedDate.value, lunches));
      match outcome {
        case Posted =>
          success := SuccessMessage;
          selectedStudent := None;
          selectedDate := None;
          lunches := NoLunches;
        case PostFailed(e) =>
          error := ApiService.FormatError(e);
      }
    }
  }
}
