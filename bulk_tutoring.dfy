/** The bulk scheduling form: a roster annotated with each student's lunch
    period, a duplicate-free selection of students, and a submission that
    posts one request per selected student and sorts the students into
    those scheduled and those that failed. Each request's outcome is a
    parameter. */
module BulkTutoring {
  import opened Common
  import opened Calendar
  import ApiService
  import TutoringRequestForm
  import Sessions

  /** The lunch field of an included teacher. */
  datatype TeacherLunch = TeacherLunch(lunch: Option<string>)

  /** `student.teachers`, when the API nests the teachers. */
  datatype TeacherGroup = TeacherGroup(rr: Option<TeacherLunch>)

  /** A student as `GET /students` returns it. */
  datatype RawStudent = RawStudent(
    id: Id,
    name: string,
    teachers: Option<TeacherGroup>,
    rr: Option<TeacherLunch>,
    lunchPeriod: Option<string>)

  /** A roster entry after `fetchStudents` processed it. */
  datatype Student = Student(id: Id, name: string, lunchPeriod: Option<string>, displayName: string)

  function NestedRRLunch(s: RawStudent): Option<string> {
    if s.teachers.Some? && s.teachers.value.rr.Some? then s.teachers.value.rr.value.lunch else None
  }

  function RRLunch(s: RawStudent): Option<string> {
    if s.rr.Some? then s.rr.value.lunch else None
  }

  /** The lunch period: the nested RR teacher's lunch, else the included RR
      teacher's, else the student's own field, else none; the first one
      present wins. */
  function LunchPeriodOf(s: RawStudent): (p: Option<string>)
    ensures p.Some? ==> p.value != ""
    ensures ApiService.Truthy(NestedRRLunch(s)) ==> p == NestedRRLunch(s)
    ensures !ApiService.Truthy(NestedRRLunch(s)) && ApiService.Truthy(RRLunch(s)) ==> p == RRLunch(s)
    ensures !ApiService.Truthy(NestedRRLunch(s)) && !ApiService.Truthy(RRLunch(s)) && ApiService.Truthy(s.lunchPeriod) ==> p == s.lunchPeriod
    ensures p.None? <==> !ApiService.Truthy(NestedRRLunch(s)) && !ApiService.Truthy(RRLunch(s)) && !ApiService.Truthy(s.lunchPeriod)
  {
    if ApiService.Truthy(NestedRRLunch(s)) then NestedRRLunch(s)
    else if ApiService.Truthy(RRLunch(s)) then RRLunch(s)
    else if ApiService.Truthy(s.lunchPeriod) then s.lunchPeriod
    else None
  }

  /** The processed roster entry; the name shown is prefixed with
      `[period] ` exactly when a period was found. */
  function Process(s: RawStudent): (r: Student)
    ensures r.id == s.id && r.name == s.name && r.lunchPeriod == LunchPeriodOf(s)
    ensures r.lunchPeriod.Some? ==> r.displayName == "[" + r.lunchPeriod.value + "] " + s.name
    ensures r.lunchPeriod.None? ==> r.displayName == s.name
    ensures r.displayName != s.name <==> r.lunchPeriod.Some?
  {
    var lunchPeriod := LunchPeriodOf(s);
    Student(s.id, s.name, lunchPeriod,
            if lunchPeriod.Some? then "[" + lunchPeriod.value + "] " + s.name else s.name)
  }

  /** `isFormValid`: some student is selected and every selected student
      would pass the single request form's validation with this date and
      these lunch periods. */
  function IsFormValid(date: Option<Date>, lunches: Lunches, selected: seq<Student>): (valid: bool)
    ensures valid ==> date.Some? && lunches.Any()
    ensures valid <==> (|selected| > 0 &&
      forall i :: 0 <= i < |selected| ==> TutoringRequestForm.Validate(Some(selected[i].id), date, lunches).None?)
  {
    assert |selected| > 0 ==> (TutoringRequestForm.Validate(Some(selected[0].id), date, lunches).None? <==> date.Some? && lunches.Any());
    date.Some? && lunches.Any() && |selected| > 0
  }

  predicate NoDuplicateIds(students: seq<Student>) {
    forall i, j :: 0 <= i < j < |students| ==> students[i].id != students[j].id
  }

  predicate IsSelected(students: seq<Student>, id: Id) {
    exists i :: 0 <= i < |students| && students[i].id == id
  }

  /** One scheduled student: its name and the id of the created request. */
  datatype Scheduled = Scheduled(student: string, requestId: Id)

  /** One student that could not be scheduled, with the formatted error. */
  datatype Unscheduled = Unscheduled(student: string, error: string)

  /** The outcome of one `createTutoringRequest` call. */
  datatype RequestOutcome = Created(requestId: Id) | Failed(error: ApiService.RequestError)

  /** The scheduled entries for `students`, in order. */
  function ScheduledOf(students: seq<Student>, respond: Id -> RequestOutcome): seq<Scheduled> {
    if students == [] then []
    else
      var last := students[|students| - 1];
      ScheduledOf(students[..|students| - 1], respond) +
      (match respond(last.id)
       case Created(rid) => [Scheduled(last.name, rid)]
       case Failed(_) => [])
  }

  /** The failed entries for `students`, in order. */
  function UnscheduledOf(students: seq<Student>, respond: Id -> RequestOutcome): seq<Unscheduled> {
    if students == [] then []
    else
      var last := students[|students| - 1];
      UnscheduledOf(students[..|students| - 1], respond) +
      (match respond(last.id)
       case Created(_) => []
       case Failed(e) => [Unscheduled(last.name, ApiService.FormatError(e))])
  }

  function CountCreated(students: seq<Student>, respond: Id -> RequestOutcome): nat {
    if students == [] then 0
    else CountCreated(students[..|students| - 1], respond) +
         (if respond(students[|students| - 1].id).Created? then 1 else 0)
  }

  /** Every selected student lands in exactly one of the two lists: the
      scheduled list has one entry per created request, the failed list one
      per failed request, and together they account for all students. */
  lemma {:induction false} OutcomesPartition(students: seq<Student>, respond: Id -> RequestOutcome)
    ensures |ScheduledOf(students, respond)| == CountCreated(students, respond)
    ensures |UnscheduledOf(students, respond)| == |students| - CountCreated(students, respond)
    ensures |ScheduledOf(students, respond)| + |UnscheduledOf(students, respond)| == |students|
  {
    if students != [] {
      OutcomesPartition(students[..|students| - 1], respond);
    }
  }

  /** With all requests created nothing fails, and the other way round. */
  lemma {:induction false} AllCreatedNoneFailed(students: seq<Student>, respond: Id -> RequestOutcome)
    ensures |UnscheduledOf(students, respond)| == 0 <==>
      forall i :: 0 <= i < |students| ==> respond(students[i].id).Created?
  {
    if students != [] {
      var p := students[..|students| - 1];
      AllCreatedNoneFailed(p, respond);
      assert forall i :: 0 <= i < |p| ==> p[i] == students[i];
    }
  }

  /** The summary `setResults` records: the long date, the letters of the
      chosen lunch periods, the number of students sent and the two lists. */
  datatype Results = Results(
    date: string, lunches: seq<char>, total: nat,
    scheduled: seq<Scheduled>, unscheduled: seq<Unscheduled>)

  const MonthNames: seq<string> :=
    ["January", "February", "March", "April", "May", "June", "July",
     "August", "September", "October", "November", "December"]

  /** date-fns `format(date, 'MMMM d, yyyy')`: the month's full name, the day
      without padding and the year padded to four digits. */
  function LongDate(d: Date): string {
    MonthNames[d.month - 1] + " " + IntToString(d.day) + ", " + PadZero(IntToString(d.year), 4)
  }

  /** The long date reads back field by field: the month's name and a space,
      the day without a leading zero, a comma and a space, then the year,
      which takes exactly four digits up to the year 9999. */
  lemma LongDateReadsBack(d: Date)
    ensures var s := LongDate(d);
      |s| >= DayEnd(d) + 3 &&
      s[..DayStart(d) - 1] == MonthNames[d.month - 1] && s[DayStart(d) - 1] == ' ' &&
      AllDigits(s[DayStart(d)..DayEnd(d)]) && DigitValue(s[DayStart(d)..DayEnd(d)]) == d.day &&
      s[DayStart(d)] != '0' &&
      s[DayEnd(d)..DayEnd(d) + 2] == ", " &&
      AllDigits(s[DayEnd(d) + 2..]) && DigitValue(s[DayEnd(d) + 2..]) == d.year &&
      (d.year <= 9999 ==> |s| == DayEnd(d) + 6)
  {
    var m := MonthNames[d.month - 1];
    var day := IntToString(d.day);
    var year := PadZero(IntToString(d.year), 4);
    DigitsFit(d.day);
    DigitsValue(d.day);
    DigitsLead(d.day);
    DigitsFit(d.year);
    PaddedDigitsValue(d.year, 4);
    var s := LongDate(d);
    assert s == m + " " + day + ", " + year;
    assert s[..DayStart(d) - 1] == m;
    assert s[DayStart(d)..DayEnd(d)] == day;
    assert s[DayEnd(d)..DayEnd(d) + 2] == ", ";
    assert s[DayEnd(d) + 2..] == year;
  }

  /** Where the day of a long date starts: after the month's name and a space. */
  function DayStart(d: Date): nat {
    |MonthNames[d.month - 1]| + 1
  }

  /** Where the day of a long date ends: it takes one digit below the 10th and two after. */
  function DayEnd(d: Date): nat {
    DayStart(d) + if d.day < 10 then 1 else 2
  }

  /** A word: no space and no digit in it. */
  predicate IsWord(w: string) {
    forall k :: 0 <= k < |w| ==> w[k] != ' ' && !IsDigit(w[k])
  }

  lemma MonthNamesAreWords(i: int)
    requires 0 <= i < 12
    ensures IsWord(MonthNames[i])
  {
  }

  /** Two words each followed by a space at the start of one string are the same word. */
  lemma FirstWord(s: string, w1: string, w2: string)
    requires IsWord(w1) && |w1| < |s| && s[..|w1|] == w1 && s[|w1|] == ' '
    requires IsWord(w2) && |w2| < |s| && s[..|w2|] == w2 && s[|w2|] == ' '
    ensures w1 == w2
  {
  }

  /** Two months have the same name only if they are the same month. */
  lemma MonthNamesDistinct(i: int, j: int)
    requires 0 <= i < 12 && 0 <= j < 12 && MonthNames[i] == MonthNames[j]
    ensures i == j
  {
  }

  /** The long date names one day: two days with the same long date are the same day. */
  lemma LongDateNamesTheDay(d1: Date, d2: Date)
    requires LongDate(d1) == LongDate(d2)
    ensures d1 == d2
  {
    LongDateReadsBack(d1);
    LongDateReadsBack(d2);
    SameLongDateSameMonth(d1, d2);
    SameLongDateSameDay(d1, d2);
    var s := LongDate(d1);
    assert s[DayEnd(d1) + 2..] == s[DayEnd(d2) + 2..];
  }

  /** The first space of a long date ends the month's name, which names one month. */
  lemma SameLongDateSameMonth(d1: Date, d2: Date)
    requires LongDate(d1) == LongDate(d2)
    ensures d1.month == d2.month
  {
    LongDateReadsBack(d1);
    LongDateReadsBack(d2);
    MonthNamesAreWords(d1.month - 1);
    MonthNamesAreWords(d2.month - 1);
    FirstWord(LongDate(d1), MonthNames[d1.month - 1], MonthNames[d2.month - 1]);
    MonthNamesDistinct(d1.month - 1, d2.month - 1);
  }

  /** Two runs of digits from one position, each ended by a comma, end at the same place. */
  lemma CommaEndsDigits(s: string, p: nat, e1: nat, e2: nat)
    requires p <= e1 < |s| && AllDigits(s[p..e1]) && s[e1] == ','
    requires p <= e2 < |s| && AllDigits(s[p..e2]) && s[e2] == ','
    ensures e1 == e2
  {
  }

  /** In one month, the comma after the day ends the day, which then reads back alike. */
  lemma SameLongDateSameDay(d1: Date, d2: Date)
    requires LongDate(d1) == LongDate(d2) && d1.month == d2.month
    ensures d1.day == d2.day
  {
    LongDateReadsBack(d1);
    LongDateReadsBack(d2);
    var s := LongDate(d1);
    assert s[DayEnd(d1)..DayEnd(d1) + 2][0] == s[DayEnd(d1)];
    assert s[DayEnd(d2)..DayEnd(d2) + 2][0] == s[DayEnd(d2)];
    CommaEndsDigits(s, DayStart(d1), DayEnd(d1), DayEnd(d2));
  }

  /** The long date of a known day. */
  lemma LongDateExample()
    ensures LongDate(Ymd(2025, 10, 15)) == "October 15, 2025"
    ensures LongDate(Ymd(2024, 3, 1)) == "March 1, 2024"
  {
    assert Digits(15) == "15";
    assert Digits(2025) == "2025";
    assert Digits(2024) == "2024";
  }

  /** The message after every request was created. */
  function FullSuccessMessage(scheduled: nat, d: Date): string {
    "Successfully scheduled " + IntToString(scheduled) + " students for tutoring on " + LongDate(d) + "."
  }

  /** The message after some, but not all, requests were created. */
  function PartialSuccessMessage(scheduled: nat, total: nat): string {
    "Partially successful: Scheduled " + IntToString(scheduled) + " out of " + IntToString(total) + " students."
  }

  const InvalidFormMessage := "Please select a date, at least one lunch period, and at least one student."
  const NoneScheduledMessage := "Failed to schedule any students for tutoring."

  class Form {
    var allStudents: seq<Student>
    var selected: seq<Student>
    var selectedStudentId: Option<Id>
    var selectedDate: Option<Date>
    var lunches: Lunches
    var error: string
    var success: string

    ghost predicate Valid()
      reads this
    {
      NoDuplicateIds(selected)
    }

    constructor (roster: seq<RawStudent>)
      ensures Valid()
      ensures |allStudents| == |roster| && forall i :: 0 <= i < |roster| ==> allStudents[i] == Process(roster[i])
      ensures selected == [] && selectedStudentId == None && selectedDate == None
      ensures lunches == NoLunches && error == "" && success == ""
    {
      allStudents := seq(|roster|, i requires 0 <= i < |roster| => Process(roster[i]));
      selected := [];
      selectedStudentId := None;
      selectedDate := None;
      lunches := NoLunches;
      error := "";
      success := "";
    }

    function FindStudent(id: Id): (s: Option<Student>)
      reads this
      ensures s.Some? ==> s.value in allStudents && s.value.id == id
    {
      FindIn(allStudents, id)
    }

    /** `handleAddStudent`: nothing happens without a selection; an id already
        selected leaves the list alone and sets an error; a new one is
        appended, and the selection and error are cleared. The selection
        only ever offers ids of the roster. */
    method AddStudent()
      requires Valid()
      requires selectedStudentId.Some? ==> FindStudent(selectedStudentId.value).Some?
      modifies this
      ensures Valid()
      ensures allStudents == old(allStudents) && selectedDate == old(selectedDate) && lunches == old(lunches)
      ensures success == old(success)
      ensures old(selectedStudentId).None? ==>
        selected == old(selected) && selectedStudentId == old(selectedStudentId) && error == old(error)
      ensures old(selectedStudentId).Some? && IsSelected(old(selected), old(selectedStudentId).value) ==>
        selected == old(selected) && selectedStudentId == old(selectedStudentId) &&
        error == FindStudent(old(selectedStudentId).value).value.name + " is already in your selection."
      ensures old(selectedStudentId).Some? && !IsSelected(old(selected), old(selectedStudentId).value) ==>
        selected == old(selected) + [FindStudent(old(selectedStudentId).value).value] &&
        selectedStudentId == None && error == ""
    {
      if selectedStudentId.None? {
        return;
      }
      var id := selectedStudentId.value;
      var studentToAdd := FindStudent(id).value;
      if IsSelected(selected, id) {
        error := studentToAdd.name + " is already in your selection.";
        return;
      }
      selected := selected + [studentToAdd];
      selectedStudentId := None;
      error := "";
    }

    /** `handleRemoveStudent`: drops the entries with that id, keeping the rest in order. */
    method RemoveStudent(id: Id)
      requires Valid()
      modifies this
      ensures Valid()
      ensures selected == Filter((s: Student) => s.id != id, old(selected))
      ensures !IsSelected(selected, id)
      ensures allStudents == old(allStudents) && selectedStudentId == old(selectedStudentId)
      ensures selectedDate == old(selectedDate) && lunches == old(lunches) && error == old(error)
      ensures success == old(success)
    {
      RemovePreservesNoDuplicates(selected, id);
      selected := Filter((s: Student) => s.id != id, selected);
      forall k | 0 <= k < |selected| ensures selected[k].id != id {
        assert selected[k] in selected;
      }
    }

    /** `handleSubmit`: an invalid form reports and sends nothing; otherwise
        one request per selected student, in order, then one message: the
        full success message, the "none scheduled" error, or the partial
        success message. The form is reset only when none failed; the
        student chooser is never touched. */
    method Submit(respond: Id -> RequestOutcome) returns (results: Option<Results>)
      requires Valid()
      modifies this
      ensures Valid()
      ensures allStudents == old(allStudents) && selectedStudentId == old(selectedStudentId)
      ensures !IsFormValid(old(selectedDate), old(lunches), old(selected)) ==>
        results == None && selected == old(selected) && selectedDate == old(selectedDate) &&
        lunches == old(lunches) && error == InvalidFormMessage && success == ""
      ensures IsFormValid(old(selectedDate), old(lunches), old(selected)) ==>
        results == Some(Results(LongDate(old(selectedDate).value), Sessions.PeriodLetters(old(lunches)),
                                |old(selected)|, ScheduledOf(old(selected), respond), UnscheduledOf(old(selected), respond)))
      ensures IsFormValid(old(selectedDate), old(lunches), old(selected)) ==>
        (error == NoneScheduledMessage <==> |ScheduledOf(old(selected), respond)| == 0) &&
        (error == "" <==> |ScheduledOf(old(selected), respond)| > 0)
      ensures IsFormValid(old(selectedDate), old(lunches), old(selected)) && |UnscheduledOf(old(selected), respond)| == 0 ==>
        success == FullSuccessMessage(|ScheduledOf(old(selected), respond)|, old(selectedDate).value) &&
        selected == [] && selectedDate == None && lunches == NoLunches
      ensures IsFormValid(old(selectedDate), old(lunches), old(selected)) && |UnscheduledOf(old(selected), respond)| > 0 ==>
        selected == old(selected) && selectedDate == old(selectedDate) && lunches == old(lunches) &&
        success == (if |ScheduledOf(old(selected), respond)| == 0 then ""
                    else PartialSuccessMessage(|ScheduledOf(old(selected), respond)|, |old(selected)|))
    {
      error := "";
      success := "";
      if !IsFormValid(selectedDate, lunches, selected) {
        error := InvalidFormMessage;
        return None;
      }
      var date := selectedDate.value;
      var students := selected;
      var successfulStudents: seq<Scheduled> := [];
      var failedStudents: seq<Unscheduled> := [];
      var i := 0;
      while i < |students|
        invariant 0 <= i <= |students|
        invariant successfulStudents == ScheduledOf(students[..i], respond)
        invariant failedStudents == UnscheduledOf(students[..i], respond)
      {
        var student := students[i];
        assert students[..i + 1][..i] == students[..i];
        match respond(student.id) {
          case Created(rid) =>
            successfulStudents := successfulStudents + [Scheduled(student.name, rid)];
          case Failed(e) =>
            failedStudents := failedStudents + [Unscheduled(student.name, ApiService.FormatError(e))];
        }
        i := i + 1;
      }
      assert students[..i] == students;
      OutcomesPartition(students, respond);
      results := Some(Results(LongDate(date), Sessions.PeriodLetters(lunches), |students|, successfulStudents, failedStudents));
      if |failedStudents| == 0 {
        success := FullSuccessMessage(|successfulStudents|, date);
      } else if |successfulStudents| == 0 {
        error := NoneScheduledMessage;
      } else {
        success := PartialSuccessMessage(|successfulStudents|, |students|);
      }
      if |failedStudents| == 0 {
        selected := [];
        selectedDate := None;
        lunches := NoLunches;
      }
    }
  }

  function FindIn(students: seq<Student>, id: Id): (s: Option<Student>)
    ensures s.Some? ==> s.value in students && s.value.id == id
    ensures s.Some? ==> exists k :: 0 <= k < |students| && students[k] == s.value && NoIdBefore(students, k, id)
    ensures s.None? ==> forall i :: 0 <= i < |students| ==> students[i].id != id
  {
    if students == [] then None
    else if students[0].id == id then Some(students[0])
    else
      var r := FindIn(students[1..], id);
      if r.Some? then
        var k :| 0 <= k < |students[1..]| && students[1..][k] == r.value && NoIdBefore(students[1..], k, id);
        assert students[k + 1] == r.value;
        r
      else r
  }

  /** No student before position `k` has the id. */
  predicate NoIdBefore(students: seq<Student>, k: int, id: Id)
    requires k <= |students|
  {
    forall j :: 0 <= j < k ==> students[j].id != id
  }


  lemma {:induction false} RemovePreservesNoDuplicates(students: seq<Student>, id: Id)
    requires NoDuplicateIds(students)
    ensures NoDuplicateIds(Filter((s: Student) => s.id != id, students))
  {
    if students != [] {
      var p := (s: Student) => s.id != id;
      RemovePreservesNoDuplicates(students[1..], id);
      var rest := Filter(p, students[1..]);
      assert forall x :: x in rest ==> x.id != students[0].id by {
        forall x | x in rest ensures x.id != students[0].id {
          var k :| 0 <= k < |students[1..]| && students[1..][k] == x;
          assert students[k + 1] == x;
        }
      }
    }
  }
}
