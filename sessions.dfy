/** A tutoring request as the client receives it from `GET /api/tutoring`
    (the row with its Student and Teacher included), and the two operations
    several components apply to such lists: marking one cancelled by id and
    rendering the lunch periods. */
module Sessions {
  import opened Common
  import opened Calendar

  /** The included Student: its id, display name and the id of its RR teacher. */
  datatype StudentInfo = StudentInfo(id: Id, name: Option<string>, rrTeacherId: Option<Id>)

  /** The included Teacher. */
  datatype TeacherInfo = TeacherInfo(id: Id, name: Option<string>, subject: string)

  datatype Session = Session(
    id: Id,
    student: StudentInfo,
    teacher: Option<TeacherInfo>,
    date: Date,
    lunches: Lunches,
    status: Status)

  /** `list.map(s => s.id === id ? {...s, status: 'cancelled'} : s)`, the update
      applied by the dashboard's `handleRequestCancelled` and by the tutoring
      context's `cancelSession`. */
  function MarkCancelled(sessions: seq<Session>, id: Id): (r: seq<Session>)
    ensures |r| == |sessions|
    ensures forall i :: 0 <= i < |r| ==>
      r[i] == if sessions[i].id == id then sessions[i].(status := Cancelled) else sessions[i]
  {
    if sessions == [] then []
    else
      var s := sessions[0];
      [if s.id == id then s.(status := Cancelled) else s] + MarkCancelled(sessions[1..], id)
  }

  /** An id that matches nothing leaves the list as it was. */
  lemma MarkCancelledNoMatch(sessions: seq<Session>, id: Id)
    requires forall i :: 0 <= i < |sessions| ==> sessions[i].id != id
    ensures MarkCancelled(sessions, id) == sessions
  {
  }

  /** Marking twice is marking once. */
  lemma MarkCancelledIdempotent(sessions: seq<Session>, id: Id)
    ensures MarkCancelled(MarkCancelled(sessions, id), id) == MarkCancelled(sessions, id)
  {
  }

  /** `request.Teacher?.name?.toLowerCase() === teacherName.toLowerCase()`:
      a request with no teacher, or a teacher with no name, matches no name. */
  function TeacherNamed(s: Session, teacherName: string): (named: bool)
    ensures named <==>
      s.teacher.Some? && s.teacher.value.name.Some? &&
      |s.teacher.value.name.value| == |teacherName| &&
      forall i :: 0 <= i < |teacherName| ==> LowerChar(s.teacher.value.name.value[i]) == LowerChar(teacherName[i])
  {
    s.teacher.Some? && s.teacher.value.name.Some? &&
    Lower(s.teacher.value.name.value) == Lower(teacherName)
  }

  /** The comparison ignores the case of the stored name. */
  lemma TeacherNamedIgnoresCase(s: Session, teacherName: string)
    ensures TeacherNamed(s, Lower(teacherName)) <==> TeacherNamed(s, teacherName)
  {
    LowerIdempotent(teacherName);
  }

  /** The letters of the set flags, in the order A, B, C, D. */
  function PeriodLetters(l: Lunches): (r: seq<char>)
    ensures forall c :: c in r <==> (c == 'A' && l.a) || (c == 'B' && l.b) || (c == 'C' && l.c) || (c == 'D' && l.d)
    ensures forall i, j :: 0 <= i < j < |r| ==> r[i] < r[j]
  {
    (if l.a then ['A'] else []) + (if l.b then ['B'] else []) +
    (if l.c then ['C'] else []) + (if l.d then ['D'] else [])
  }

  /** `Array.prototype.join(', ')` of one-letter strings. */
  function JoinComma(cs: seq<char>): (r: string)
    ensures |r| == if |cs| == 0 then 0 else 3 * |cs| - 2
    ensures forall k :: 0 <= k < |r| ==>
      r[k] == (if k % 3 == 0 then cs[k / 3] else if k % 3 == 1 then ',' else ' ')
  {
    if |cs| == 0 then ""
    else if |cs| == 1 then [cs[0]]
    else [cs[0], ',', ' '] + JoinComma(cs[1..])
  }

  /** `getLunchPeriods`, the same in the request list, the simple request
      list and the Raptor Rotation events list: empty exactly when no flag is
      set, and otherwise the set letters in A, B, C, D order at every third
      position, with ", " between them. */
  function LunchPeriods(l: Lunches): (r: string)
    ensures r == "" <==> !l.Any()
    ensures |r| == if l.Any() then 3 * |PeriodLetters(l)| - 2 else 0
    ensures forall c :: c in PeriodLetters(l) ==> c in r
    ensures forall k :: 0 <= k < |r| && k % 3 == 0 ==> r[k] in PeriodLetters(l)
    ensures forall k :: 0 <= k < |r| && k % 3 != 0 ==> r[k] == (if k % 3 == 1 then ',' else ' ')
    ensures forall j, k :: 0 <= j < k < |r| && j % 3 == 0 && k % 3 == 0 ==> r[j] < r[k]
  {
    LettersWhenAny(l);
    JoinedInOrder(PeriodLetters(l));
    JoinComma(PeriodLetters(l))
  }

  lemma LettersWhenAny(l: Lunches)
    ensures |PeriodLetters(l)| > 0 <==> l.Any()
  {
    var cs := PeriodLetters(l);
    if l.a { assert 'A' in cs; }
    else if l.b { assert 'B' in cs; }
    else if l.c { assert 'C' in cs; }
    else if l.d { assert 'D' in cs; }
  }

  /** Joining keeps every letter, and keeps increasing letters increasing. */
  lemma JoinedInOrder(cs: seq<char>)
    requires forall i, j :: 0 <= i < j < |cs| ==> cs[i] < cs[j]
    ensures forall c :: c in cs ==> c in JoinComma(cs)
    ensures forall j, k :: 0 <= j < k < |JoinComma(cs)| && j % 3 == 0 && k % 3 == 0 ==>
      JoinComma(cs)[j] < JoinComma(cs)[k]
  {
    var r := JoinComma(cs);
    forall c | c in cs
      ensures c in r
    {
      var i :| 0 <= i < |cs| && cs[i] == c;
      assert r[3 * i] == c;
    }
    forall j, k | 0 <= j < k < |r| && j % 3 == 0 && k % 3 == 0
      ensures r[j] < r[k]
    {
      assert j / 3 < k / 3;
    }
  }
}
