/** The tutoring route of the server: the weekday priority table, the
    submission handler that arbitrates between two teachers claiming the
    same student on the same day, and the cancellation handler. The booking
    table is a sequence of rows in insertion order, as the database returns
    them. */
module TutoringRoutes {
  import opened Common
  import opened Calendar

  // ---------------------------------------------------------------------
  // Priority table

  /** Weekday (0 = Sunday) to the subject that holds priority that day. */
  const PriorityMap: map<int, Option<string>> :=
    map[0 := None, 1 := Some("CS"), 2 := Some("Math"), 3 := None,
        4 := Some("Humanities"), 5 := Some("Science"), 6 := None]

  /** The subject with priority on the weekday of `date`, or null. */
  function PrioritySubjectForDay(date: Date): (s: Option<string>)
    ensures s.None? <==> BlockedWeekday(DayOfWeek(date))
  {
    PriorityMap[DayOfWeek(date)]
  }

  /** The four tutoring weekdays, each with its subject. */
  lemma PriorityTable(date: Date)
    ensures PrioritySubjectForDay(date) == Some("CS") <==> DayOfWeek(date) == 1
    ensures PrioritySubjectForDay(date) == Some("Math") <==> DayOfWeek(date) == 2
    ensures PrioritySubjectForDay(date) == Some("Humanities") <==> DayOfWeek(date) == 4
    ensures PrioritySubjectForDay(date) == Some("Science") <==> DayOfWeek(date) == 5
  {
  }

  /** No subject holds priority on two different weekdays. */
  lemma SubjectHasOneWeekday(d1: Date, d2: Date)
    requires PrioritySubjectForDay(d1).Some?
    requires PrioritySubjectForDay(d1) == PrioritySubjectForDay(d2)
    ensures DayOfWeek(d1) == DayOfWeek(d2)
  {
  }

  /** Whether a teacher of `subject` holds priority on `date`. */
  function HasSubjectPriority(subject: string, date: Date): (b: bool)
    ensures b ==> !BlockedWeekday(DayOfWeek(date))
    ensures b <==>
      (subject == "CS" && DayOfWeek(date) == 1) ||
      (subject == "Math" && DayOfWeek(date) == 2) ||
      (subject == "Humanities" && DayOfWeek(date) == 4) ||
      (subject == "Science" && DayOfWeek(date) == 5)
  {
    Some(subject) == PrioritySubjectForDay(date)
  }

  /** Teachers of two different subjects never both hold priority on one day. */
  lemma PriorityIsExclusive(s1: string, s2: string, date: Date)
    requires s1 != s2
    ensures !(HasSubjectPriority(s1, date) && HasSubjectPriority(s2, date))
  {
  }

  // ---------------------------------------------------------------------
  // Records

  datatype Teacher = Teacher(name: string, subject: string)

  /** A row of the TutoringRequests table. */
  datatype Booking = Booking(
    id: Id,
    studentId: Id,
    teacherId: Id,
    date: Date,
    lunches: Lunches,
    status: Status,
    priority: int,
    conflictReason: Option<string>)

  /** The `lunches` object of a request body; an absent key is None. */
  datatype LunchFlags = LunchFlags(a: Option<bool>, b: Option<bool>, c: Option<bool>, d: Option<bool>)

  /** `lunches.X || false` for each period. */
  function StoredLunches(l: LunchFlags): (r: Lunches)
    ensures r.a <==> l.a == Some(true)
    ensures r.b <==> l.b == Some(true)
    ensures r.c <==> l.c == Some(true)
    ensures r.d <==> l.d == Some(true)
  {
    Lunches(l.a.GetOr(false), l.b.GetOr(false), l.c.GetOr(false), l.d.GetOr(false))
  }

  /** The body of a submission; `override` defaults to false. `day` is the
      `YYYY-MM-DD` string as split into numbers; the handler works with the
      calendar day `new Date(year, month - 1, day)` makes of it, for the
      weekday, the priority, the lookup and the stored row alike. */
  datatype Submission = Submission(studentId: Id, day: Ymd, lunches: LunchFlags, override: bool) {
    const date: Date := Normalize(day)
  }

  /** The Students and Teachers tables, which this route only reads. */
  datatype Directory = Directory(students: set<Id>, teachers: map<Id, Teacher>)

  /** The TutoringRequests table and its next auto-increment id. */
  datatype Db = Db(rows: seq<Booking>, nextId: Id)

  datatype PostResponse =
    | Created(request: Booking)
    | Overridden(request: Booking, overriddenTeacher: Teacher)
    | InvalidDate
    | StudentNotFound
    | TeacherNotFound
    | OverrideRequired(existingTeacher: Teacher)
    | DeniedExistingPriority(existingTeacher: Teacher)
    | DeniedBothPriority(existingTeacher: Teacher)
    | DeniedFirstCome(existingTeacher: Teacher)
    | ServerError
  {
    function StatusCode(): int {
      match this
      case Created(_) => 200
      case Overridden(_, _) => 200
      case InvalidDate => 400
      case StudentNotFound => 404
      case TeacherNotFound => 404
      case OverrideRequired(_) => 409
      case DeniedExistingPriority(_) => 403
      case DeniedBothPriority(_) => 400
      case DeniedFirstCome(_) => 400
      case ServerError => 500
    }

    /** The `conflict.canOverride` flag of a conflict response (also its `requireOverride`). */
    predicate CanOverride() {
      OverrideRequired?
    }

    /** The response carries a `conflict` object. */
    predicate IsConflict() {
      OverrideRequired? || DeniedExistingPriority? || DeniedBothPriority? || DeniedFirstCome?
    }
  }

  datatype PostStep = PostStep(response: PostResponse, db: Db)

  datatype CancelResponse = CancelOk(request: Booking) | RequestNotFound | NotAuthorized {
    function StatusCode(): int {
      match this
      case CancelOk(_) => 200
      case RequestNotFound => 404
      case NotAuthorized => 401
    }
  }

  datatype CancelStep = CancelStep(response: CancelResponse, db: Db)

  // ---------------------------------------------------------------------
  // Queries over the table

  predicate ActiveFor(b: Booking, student: Id, date: Date) {
    b.studentId == student && b.date == date && b.status == Active
  }

  /** The number of active bookings for (student, date). */
  function ActiveCount(rows: seq<Booking>, student: Id, date: Date): nat {
    if |rows| == 0 then 0
    else ActiveCount(rows[..|rows| - 1], student, date) + (if ActiveFor(rows[|rows| - 1], student, date) then 1 else 0)
  }

  /** `existingRequests[0]` of the active-bookings query, as an index. */
  function FirstActive(rows: seq<Booking>, student: Id, date: Date): (r: Option<nat>)
    ensures r.None? ==> forall i :: 0 <= i < |rows| ==> !ActiveFor(rows[i], student, date)
    ensures r.Some? ==> r.value < |rows| && ActiveFor(rows[r.value], student, date)
    ensures r.Some? ==> forall j :: 0 <= j < r.value ==> !ActiveFor(rows[j], student, date)
  {
    if |rows| == 0 then None
    else if ActiveFor(rows[0], student, date) then Some(0)
    else match FirstActive(rows[1..], student, date)
      case None => None
      case Some(k) => Some(k + 1)
  }

  /** `findByPk`, as an index. */
  function FindById(rows: seq<Booking>, id: Id): (r: Option<nat>)
    ensures r.None? ==> forall i :: 0 <= i < |rows| ==> rows[i].id != id
    ensures r.Some? ==> r.value < |rows| && rows[r.value].id == id
  {
    if |rows| == 0 then None
    else if rows[0].id == id then Some(0)
    else match FindById(rows[1..], id)
      case None => None
      case Some(k) => Some(k + 1)
  }

  /** The table invariant: ids are distinct and below the next id, no row is
      ever in the `conflict` status, and at most one booking is active per
      (student, date). */
  ghost function Consistent(db: Db): (c: bool)
    ensures c ==> forall i, j :: 0 <= i < j < |db.rows| && db.rows[i].status == Active && db.rows[j].status == Active ==>
      db.rows[i].studentId != db.rows[j].studentId || db.rows[i].date != db.rows[j].date
  {
    OneActivePerKey(db.rows);
    (forall i :: 0 <= i < |db.rows| ==> db.rows[i].id < db.nextId) &&
    (forall i, j :: 0 <= i < j < |db.rows| ==> db.rows[i].id != db.rows[j].id) &&
    (forall i :: 0 <= i < |db.rows| ==> db.rows[i].status != Conflict) &&
    (forall s: Id, d: Date :: ActiveCount(db.rows, s, d) <= 1)
  }

  // ---------------------------------------------------------------------
  // The handlers

  function OverrideReason(requesterName: string): string {
    "Overriden by " + requesterName + ". Priority given"
  }

  function NewBooking(db: Db, callerId: Id, sub: Submission, priority: int): Booking {
    Booking(db.nextId, sub.studentId, callerId, sub.date, StoredLunches(sub.lunches), Active, priority, None)
  }

  function Insert(db: Db, b: Booking): Db {
    Db(db.rows + [b], db.nextId + 1)
  }

  /** `POST /`: the decision for one submission by teacher `callerId`, and
      the table afterwards. */
  function Post(db: Db, callerId: Id, sub: Submission, dir: Directory): (step: PostStep)
    ensures |step.db.rows| == |db.rows| + (if step.response.StatusCode() == 200 then 1 else 0)
    ensures step.response.StatusCode() != 200 ==> step.db == db
    ensures forall i :: 0 <= i < |db.rows| ==> step.db.rows[i].id == db.rows[i].id
  {
    if BlockedWeekday(DayOfWeek(sub.date)) then PostStep(InvalidDate, db)
    else if sub.studentId !in dir.students then PostStep(StudentNotFound, db)
    else if callerId !in dir.teachers then PostStep(TeacherNotFound, db)
    else
      var requester := dir.teachers[callerId];
      var requestHasPriority := HasSubjectPriority(requester.subject, sub.date);
      match FirstActive(db.rows, sub.studentId, sub.date)
      case None =>
        var b := NewBooking(db, callerId, sub, if requestHasPriority then 1 else 0);
        PostStep(Created(b), Insert(db, b))
      case Some(i) =>
        var existing := db.rows[i];
        if existing.teacherId !in dir.teachers then PostStep(ServerError, db)
        else
          var holder := dir.teachers[existing.teacherId];
          var existHasPriority := HasSubjectPriority(holder.subject, sub.date);
          if requestHasPriority && !existHasPriority then
            if !sub.override then PostStep(OverrideRequired(holder), db)
            else
              var superseded := existing.(status := Cancelled, conflictReason := Some(OverrideReason(requester.name)));
              var b := NewBooking(db, callerId, sub, 1);
              PostStep(Overridden(b, holder), Insert(db.(rows := db.rows[i := superseded]), b))
          else if existHasPriority && !requestHasPriority then PostStep(DeniedExistingPriority(holder), db)
          else if requestHasPriority && existHasPriority then PostStep(DeniedBothPriority(holder), db)
          else PostStep(DeniedFirstCome(holder), db)
  }

  /** `PUT /cancel/:id` by teacher `callerId`. */
  function Cancel(db: Db, callerId: Id, id: Id): (step: CancelStep)
    ensures |step.db.rows| == |db.rows| && step.db.nextId == db.nextId
    ensures !step.response.CancelOk? ==> step.db == db
  {
    match FindById(db.rows, id)
    case None => CancelStep(RequestNotFound, db)
    case Some(i) =>
      if db.rows[i].teacherId != callerId then CancelStep(NotAuthorized, db)
      else
        var c := db.rows[i].(status := Cancelled);
        CancelStep(CancelOk(c), db.(rows := db.rows[i := c]))
  }

  // ---------------------------------------------------------------------
  // Counting lemmas

  lemma {:induction false} ActiveCountAppend(rows: seq<Booking>, b: Booking, s: Id, d: Date)
    ensures ActiveCount(rows + [b], s, d) == ActiveCount(rows, s, d) + (if ActiveFor(b, s, d) then 1 else 0)
  {
    assert (rows + [b])[..|rows|] == rows;
  }

  lemma {:induction false} ActiveCountZero(rows: seq<Booking>, s: Id, d: Date)
    ensures ActiveCount(rows, s, d) == 0 <==> forall i :: 0 <= i < |rows| ==> !ActiveFor(rows[i], s, d)
  {
    if |rows| > 0 {
      var p := rows[..|rows| - 1];
      ActiveCountZero(p, s, d);
      assert forall i :: 0 <= i < |p| ==> p[i] == rows[i];
    }
  }

  lemma {:induction false} ActiveCountUpdate(rows: seq<Booking>, i: nat, b: Booking, s: Id, d: Date)
    requires i < |rows|
    ensures ActiveCount(rows[i := b], s, d) + (if ActiveFor(rows[i], s, d) then 1 else 0)
         == ActiveCount(rows, s, d) + (if ActiveFor(b, s, d) then 1 else 0)
  {
    var n := |rows|;
    var u := rows[i := b];
    if i < n - 1 {
      assert u[..n - 1] == rows[..n - 1][i := b];
      ActiveCountUpdate(rows[..n - 1], i, b, s, d);
    } else {
      assert u[..n - 1] == rows[..n - 1];
    }
  }

  /** Two distinct active bookings for one key are counted twice. */
  lemma {:induction false} ActiveCountTwo(rows: seq<Booking>, i: nat, j: nat, s: Id, d: Date)
    requires i < j < |rows|
    requires ActiveFor(rows[i], s, d) && ActiveFor(rows[j], s, d)
    ensures ActiveCount(rows, s, d) >= 2
  {
    var n := |rows|;
    var p := rows[..n - 1];
    if j < n - 1 {
      ActiveCountTwo(p, i, j, s, d);
    } else {
      assert p[i] == rows[i];
      ActiveCountZero(p, s, d);
    }
  }

  /** Counting at most one active booking per key means no two active rows share a key. */
  lemma OneActivePerKey(rows: seq<Booking>)
    ensures (forall s: Id, d: Date :: ActiveCount(rows, s, d) <= 1) ==>
      forall i, j :: 0 <= i < j < |rows| && rows[i].status == Active && rows[j].status == Active ==>
        rows[i].studentId != rows[j].studentId || rows[i].date != rows[j].date
  {
    if forall s: Id, d: Date :: ActiveCount(rows, s, d) <= 1 {
      forall i, j | 0 <= i < j < |rows| && rows[i].status == Active && rows[j].status == Active
        ensures rows[i].studentId != rows[j].studentId || rows[i].date != rows[j].date
      {
        if rows[i].studentId == rows[j].studentId && rows[i].date == rows[j].date {
          ActiveCountTwo(rows, i, j, rows[i].studentId, rows[i].date);
        }
      }
    }
  }

  /** Under the invariant, an active booking is the only active one for its key. */
  lemma ActiveIsUnique(db: Db, i: nat, j: nat, s: Id, d: Date)
    requires Consistent(db)
    requires i < |db.rows| && j < |db.rows|
    requires ActiveFor(db.rows[i], s, d) && ActiveFor(db.rows[j], s, d)
    ensures i == j
  {
    if i < j {
      ActiveCountTwo(db.rows, i, j, s, d);
    } else if j < i {
      ActiveCountTwo(db.rows, j, i, s, d);
    }
  }

  /** Under the invariant, the query's first active row is any active row for the key. */
  lemma FirstActiveIsTheActive(db: Db, i: nat, s: Id, d: Date)
    requires Consistent(db)
    requires i < |db.rows| && ActiveFor(db.rows[i], s, d)
    ensures FirstActive(db.rows, s, d) == Some(i)
  {
    var f := FirstActive(db.rows, s, d);
    assert f.Some?;
    ActiveIsUnique(db, i, f.value, s, d);
  }

  // ---------------------------------------------------------------------
  // Properties of the submission handler

  /** The table invariant holds after every submission. */
  lemma PostPreservesConsistent(db: Db, callerId: Id, sub: Submission, dir: Directory)
    requires Consistent(db)
    ensures Consistent(Post(db, callerId, sub, dir).db)
  {
    var step := Post(db, callerId, sub, dir);
    if step.response.Created? {
      ActiveCountZero(db.rows, sub.studentId, sub.date);
      AppendKeepsConsistent(db, step.response.request);
    } else if step.response.Overridden? {
      var i := FirstActive(db.rows, sub.studentId, sub.date).value;
      var mid := db.rows[i := step.db.rows[i]];
      assert step.db.rows == mid + [step.response.request];
      ReplaceAndAppendKeepsConsistent(db, i, step.db.rows[i], step.response.request);
    }
  }

  /** Appending a fresh-id row that is active for a key with no active row keeps the invariant. */
  lemma AppendKeepsConsistent(db: Db, b: Booking)
    requires Consistent(db)
    requires b.id == db.nextId && b.status != Conflict
    requires b.status == Active ==> ActiveCount(db.rows, b.studentId, b.date) == 0
    ensures Consistent(Insert(db, b))
  {
    var rows := Insert(db, b).rows;
    forall s: Id, d: Date ensures ActiveCount(rows, s, d) <= 1 {
      ActiveCountAppend(db.rows, b, s, d);
    }
  }

  /** Retiring the active row of a key and appending the key's new active row keeps the invariant. */
  lemma ReplaceAndAppendKeepsConsistent(db: Db, i: nat, retired: Booking, b: Booking)
    requires Consistent(db)
    requires i < |db.rows| && db.rows[i].status == Active
    requires retired.id == db.rows[i].id && retired.status == Cancelled
    requires b.id == db.nextId && b.status == Active
    requires b.studentId == db.rows[i].studentId && b.date == db.rows[i].date
    ensures Consistent(Db(db.rows[i := retired] + [b], db.nextId + 1))
  {
    var mid := db.rows[i := retired];
    var rows := mid + [b];
    forall s: Id, d: Date ensures ActiveCount(rows, s, d) <= 1 {
      ActiveCountUpdate(db.rows, i, retired, s, d);
      ActiveCountAppend(mid, b, s, d);
    }
    assert forall k :: 0 <= k < |rows| ==> rows[k].id < db.nextId + 1;
  }

  /** A Sunday, Wednesday or Saturday is rejected with 400 before any lookup or write. */
  lemma PostRejectsBlockedDay(db: Db, callerId: Id, sub: Submission, dir: Directory)
    requires BlockedWeekday(DayOfWeek(sub.date))
    ensures Post(db, callerId, sub, dir) == PostStep(InvalidDate, db)
    ensures Post(db, callerId, sub, dir).response.StatusCode() == 400
  {
  }

  /** With no active booking for (student, date) the handler creates exactly
      one: active, owned by the caller, with priority 1 iff the caller's
      subject has priority that day, missing lunch flags false. */
  lemma PostCreatesWhenFree(db: Db, callerId: Id, sub: Submission, dir: Directory)
    requires !BlockedWeekday(DayOfWeek(sub.date))
    requires sub.studentId in dir.students && callerId in dir.teachers
    requires ActiveCount(db.rows, sub.studentId, sub.date) == 0
    ensures var step := Post(db, callerId, sub, dir);
      step.response.Created? &&
      var b := step.response.request;
      b.status == Active && b.teacherId == callerId && b.studentId == sub.studentId && b.date == sub.date &&
      (b.priority == 1 <==> HasSubjectPriority(dir.teachers[callerId].subject, sub.date)) &&
      (b.priority == 0 <==> !HasSubjectPriority(dir.teachers[callerId].subject, sub.date)) &&
      b.lunches == StoredLunches(sub.lunches) && b.conflictReason == None &&
      step.db.rows == db.rows + [b] &&
      ActiveCount(step.db.rows, sub.studentId, sub.date) == 1
  {
    ActiveCountZero(db.rows, sub.studentId, sub.date);
    var step := Post(db, callerId, sub, dir);
    ActiveCountAppend(db.rows, step.response.request, sub.studentId, sub.date);
  }

  /** A priority requester facing a non-priority holder, without `override`,
      gets 409 asking for confirmation, and nothing is written. */
  lemma PostAsksForOverride(db: Db, callerId: Id, sub: Submission, dir: Directory, i: nat)
    requires Consistent(db)
    requires !BlockedWeekday(DayOfWeek(sub.date))
    requires sub.studentId in dir.students && callerId in dir.teachers
    requires i < |db.rows| && ActiveFor(db.rows[i], sub.studentId, sub.date)
    requires db.rows[i].teacherId in dir.teachers
    requires HasSubjectPriority(dir.teachers[callerId].subject, sub.date)
    requires !HasSubjectPriority(dir.teachers[db.rows[i].teacherId].subject, sub.date)
    requires !sub.override
    ensures var step := Post(db, callerId, sub, dir);
      step == PostStep(OverrideRequired(dir.teachers[db.rows[i].teacherId]), db) &&
      step.response.StatusCode() == 409 && step.response.CanOverride()
  {
    FirstActiveIsTheActive(db, i, sub.studentId, sub.date);
  }

  /** The same case confirmed: the holder's booking becomes cancelled with a
      reason naming the requester, the requester's booking is appended with
      priority 1, and exactly one booking stays active for the key. */
  lemma PostOverrides(db: Db, callerId: Id, sub: Submission, dir: Directory, i: nat)
    requires Consistent(db)
    requires !BlockedWeekday(DayOfWeek(sub.date))
    requires sub.studentId in dir.students && callerId in dir.teachers
    requires i < |db.rows| && ActiveFor(db.rows[i], sub.studentId, sub.date)
    requires db.rows[i].teacherId in dir.teachers
    requires HasSubjectPriority(dir.teachers[callerId].subject, sub.date)
    requires !HasSubjectPriority(dir.teachers[db.rows[i].teacherId].subject, sub.date)
    requires sub.override
    ensures var step := Post(db, callerId, sub, dir);
      step.response.Overridden? &&
      var b := step.response.request;
      b.status == Active && b.priority == 1 && b.teacherId == callerId &&
      b.studentId == sub.studentId && b.date == sub.date &&
      |step.db.rows| == |db.rows| + 1 && step.db.rows[|db.rows|] == b &&
      step.db.rows[i] == db.rows[i].(status := Cancelled,
                                     conflictReason := Some(OverrideReason(dir.teachers[callerId].name))) &&
      (forall j :: 0 <= j < |db.rows| && j != i ==> step.db.rows[j] == db.rows[j]) &&
      ActiveCount(step.db.rows, sub.studentId, sub.date) == 1
  {
    FirstActiveIsTheActive(db, i, sub.studentId, sub.date);
    var step := Post(db, callerId, sub, dir);
    var b := step.response.request;
    var mid := db.rows[i := step.db.rows[i]];
    assert step.db.rows == mid + [b];
    ActiveCountUpdate(db.rows, i, step.db.rows[i], sub.studentId, sub.date);
    ActiveCountAppend(mid, b, sub.studentId, sub.date);
    assert ActiveCount(db.rows, sub.studentId, sub.date) == 1 by {
      ActiveCountZero(db.rows, sub.studentId, sub.date);
    }
  }

  /** Every other conflict is denied without the override option, nothing is
      written, and the existing booking wins: 403 when only the holder has
      priority, 400 when both or neither have it. */
  lemma PostDeniesOtherConflicts(db: Db, callerId: Id, sub: Submission, dir: Directory, i: nat)
    requires Consistent(db)
    requires !BlockedWeekday(DayOfWeek(sub.date))
    requires sub.studentId in dir.students && callerId in dir.teachers
    requires i < |db.rows| && ActiveFor(db.rows[i], sub.studentId, sub.date)
    requires db.rows[i].teacherId in dir.teachers
    requires !(HasSubjectPriority(dir.teachers[callerId].subject, sub.date) &&
               !HasSubjectPriority(dir.teachers[db.rows[i].teacherId].subject, sub.date))
    ensures var step := Post(db, callerId, sub, dir);
      step.db == db && step.response.IsConflict() && !step.response.CanOverride() &&
      step.response.existingTeacher == dir.teachers[db.rows[i].teacherId] &&
      step.response.StatusCode() ==
        (if HasSubjectPriority(dir.teachers[db.rows[i].teacherId].subject, sub.date) &&
            !HasSubjectPriority(dir.teachers[callerId].subject, sub.date) then 403 else 400)
  {
    FirstActiveIsTheActive(db, i, sub.studentId, sub.date);
  }

  /** Two spellings of one calendar day get the same answer and leave the
      same table: the 30th of February is handled as the 1st of March. */
  lemma PostSeesCalendarDay(db: Db, callerId: Id, sub: Submission, day: Ymd, dir: Directory)
    requires Normalize(day) == Normalize(sub.day)
    ensures Post(db, callerId, sub.(day := day), dir) == Post(db, callerId, sub, dir)
  {
  }

  /** A Math teacher holds student 7 on Friday 2024-03-01; another Math
      teacher asking for "2024-02-30" meets that booking and is denied 400. */
  lemma RolledOverDayMeetsBooking()
    ensures var held := Booking(1, 7, 2, Ymd(2024, 3, 1), NoLunches, Active, 0, None);
      var dir := Directory({7}, map[2 := Teacher("Ada", "Math"), 3 := Teacher("Bo", "Math")]);
      var sub := Submission(7, Ymd(2024, 2, 30), LunchFlags(None, None, None, None), false);
      Post(Db([held], 2), 3, sub, dir) == PostStep(DeniedFirstCome(Teacher("Ada", "Math")), Db([held], 2))
  {
    NormalizeExamples();
  }

  // ---------------------------------------------------------------------
  // Properties of the cancellation handler

  lemma CancelPreservesConsistent(db: Db, callerId: Id, id: Id)
    requires Consistent(db)
    ensures Consistent(Cancel(db, callerId, id).db)
  {
    var step := Cancel(db, callerId, id);
    if step.response.CancelOk? {
      var i := FindById(db.rows, id).value;
      forall s: Id, d: Date ensures ActiveCount(step.db.rows, s, d) <= 1 {
        ActiveCountUpdate(db.rows, i, step.db.rows[i], s, d);
      }
    }
  }

  /** A missing id gives 404 and changes nothing. */
  lemma CancelMissing(db: Db, callerId: Id, id: Id)
    requires forall i :: 0 <= i < |db.rows| ==> db.rows[i].id != id
    ensures Cancel(db, callerId, id) == CancelStep(RequestNotFound, db)
  {
  }

  /** Only the teacher who owns a booking may cancel it: anyone else gets 401
      and nothing changes; the owner gets the booking back cancelled, and no
      other row changes. */
  lemma CancelOwnership(db: Db, callerId: Id, i: nat)
    requires Consistent(db)
    requires i < |db.rows|
    ensures var step := Cancel(db, callerId, db.rows[i].id);
      if db.rows[i].teacherId != callerId then
        step == CancelStep(NotAuthorized, db) && step.response.StatusCode() == 401
      else
        step.response == CancelOk(db.rows[i].(status := Cancelled)) &&
        step.db.rows == db.rows[i := db.rows[i].(status := Cancelled)]
  {
    assert FindById(db.rows, db.rows[i].id) == Some(i);
  }

  lemma {:induction false} FindByIdSameIds(rows: seq<Booking>, rows': seq<Booking>, id: Id)
    requires |rows| == |rows'|
    requires forall i :: 0 <= i < |rows| ==> rows[i].id == rows'[i].id
    ensures FindById(rows, id) == FindById(rows', id)
  {
    if |rows| > 0 {
      FindByIdSameIds(rows[1..], rows'[1..], id);
    }
  }

  /** Cancelling twice gives the same answer and the same table as cancelling once. */
  lemma CancelIdempotent(db: Db, callerId: Id, id: Id)
    ensures Cancel(Cancel(db, callerId, id).db, callerId, id) == Cancel(db, callerId, id)
  {
    var once := Cancel(db, callerId, id);
    FindByIdSameIds(db.rows, once.db.rows, id);
    if once.response.CancelOk? {
      var i := FindById(db.rows, id).value;
      assert once.db.rows[i := once.db.rows[i].(status := Cancelled)] == once.db.rows;
    }
  }

  // ---------------------------------------------------------------------
  // The table as the route updates it

  class BookingTable {
    var rows: seq<Booking>
    var nextId: Id

    function State(): Db
      reads this
    {
      Db(rows, nextId)
    }

    ghost predicate Valid()
      reads this
    {
      Consistent(State())
    }

    constructor ()
      ensures Valid() && rows == [] && nextId == 1
    {
      rows := [];
      nextId := 1;
    }

    /** `TutoringRequest.create`: appends a row with the next id. */
    method CreateRow(callerId: Id, sub: Submission, priority: int) returns (b: Booking)
      modifies this
      ensures b == NewBooking(old(State()), callerId, sub, priority)
      ensures State() == Insert(old(State()), b)
    {
      b := Booking(nextId, sub.studentId, callerId, sub.date, StoredLunches(sub.lunches), Active, priority, None);
      rows := rows + [b];
      nextId := nextId + 1;
    }

    /** `POST /` */
    method Submit(callerId: Id, sub: Submission, dir: Directory) returns (response: PostResponse)
      requires Valid()
      modifies this
      ensures Valid()
      ensures PostStep(response, State()) == Post(old(State()), callerId, sub, dir)
    {
      PostPreservesConsistent(State(), callerId, sub, dir);
      var dayOfWeek := DayOfWeek(sub.date);
      if dayOfWeek == 3 || dayOfWeek == 0 || dayOfWeek == 6 {
        return InvalidDate;
      }
      if sub.studentId !in dir.students {
        return StudentNotFound;
      }
      if callerId !in dir.teachers {
        return TeacherNotFound;
      }
      var requester := dir.teachers[callerId];
      var existing := FirstActive(rows, sub.studentId, sub.date);
      if existing.None? {
        var priority := if HasSubjectPriority(requester.subject, sub.date) then 1 else 0;
        var b := CreateRow(callerId, sub, priority);
        return Created(b);
      }
      var i := existing.value;
      var existingRequest := rows[i];
      if existingRequest.teacherId !in dir.teachers {
        return ServerError;
      }
      var existingTeacher := dir.teachers[existingRequest.teacherId];
      var requestHasPriority := HasSubjectPriority(requester.subject, sub.date);
      var existHasPriority := HasSubjectPriority(existingTeacher.subject, sub.date);
      if requestHasPriority && !existHasPriority {
        if !sub.override {
          return OverrideRequired(existingTeacher);
        }
        existingRequest := existingRequest.(status := Cancelled);
        existingRequest := existingRequest.(conflictReason := Some(OverrideReason(requester.name)));
        rows := rows[i := existingRequest];
        var b := CreateRow(callerId, sub, 1);
        return Overridden(b, existingTeacher);
      } else if existHasPriority && !requestHasPriority {
        return DeniedExistingPriority(existingTeacher);
      } else if requestHasPriority && existHasPriority {
        return DeniedBothPriority(existingTeacher);
      } else {
        return DeniedFirstCome(existingTeacher);
      }
    }

    /** `PUT /cancel/:id` */
    method CancelRequest(callerId: Id, id: Id) returns (response: CancelResponse)
      requires Valid()
      modifies this
      ensures Valid()
      ensures CancelStep(response, State()) == Cancel(old(State()), callerId, id)
    {
      CancelPreservesConsistent(State(), callerId, id);
      var found := FindById(rows, id);
      if found.None? {
        return RequestNotFound;
      }
      var request := rows[found.value];
      if request.teacherId != callerId {
        return NotAuthorized;
      }
      request := request.(status := Cancelled);
      rows := rows[found.value := request];
      return CancelOk(request);
    }
  }
}
