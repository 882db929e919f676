# rr-tutoring-app booking core in Dafny

This project models the booking logic of the Raptor Rotation tutoring app, where
teachers request students for lunch-period tutoring. It covers the server and the client:

- **Server.** The server's tutoring route keeps one table of tutoring requests. Each
  weekday gives one subject priority: CS on Monday, Math on Tuesday, Humanities on
  Thursday, Science on Friday. There is no tutoring on Wednesday or at the weekend.
  When two teachers want the same student on the same day, the route decides who
  gets the student:
  - the first teacher keeps the student;
  - the second teacher is refused;
  - or a priority teacher may confirm an override, which cancels the holder's request.

  Only the teacher who made a request may cancel it. An existing request whose
  teacher row is missing makes the route answer 500 (`ServerError`), as the source's
  null dereference does.
- **Client.** The React client repeats the priority rule in its date picker. It keeps
  a session list in memory, submits single and bulk requests, filters the request
  lists shown on each dashboard, and formats API errors.

Layout, one module per source file plus two shared ones:

- `common.dfy`: `Common`, the shared values.
  - `Option` and `Id`.
  - The request status, and the four lunch flags (`Lunches`).
  - `Array.prototype.filter` (`Filter`) and ASCII lower-casing.
  - `String.prototype.includes` (`Contains`) and decimal rendering.
- `calendar.dfy`: `Calendar`, calendar days.
  - The raw `YYYY-MM-DD` triple (`Ymd`), the real calendar days (`Date`), and the
    `new Date(year, month - 1, day)` reading of a triple (`Normalize`).
  - `Date.getDay` as Sakamoto's weekday rule (`DayOfWeek`).
  - The day order, instants of a day, and the ISO `YYYY-MM-DD` day string.
- `tutoring_routes.dfy`: `TutoringRoutes`, the server route.
  - `Post` and `Cancel` are pure decision functions over the table `Db(rows, nextId)`.
  - The class `BookingTable` holds the table. Its methods `Submit` and `CancelRequest`
    update it step by step, as the handlers do, and are proved equal to `Post` and `Cancel`.
  - The table invariant `Consistent` says: ids are distinct and below the next id, the
    unused `conflict` status never appears, and at most one request is active per
    (student, date). Both handlers preserve it.
- `sessions.dfy`: `Sessions`, the request record as the client receives it.
  - `MarkCancelled`, the update shared by the dashboard and the tutoring context.
  - The teacher-name match and the lunch-period rendering, shared by the three list views.
- `api_service.dfy`: `ApiService`, `formatError`.
- `tutoring_context.dfy`: `TutoringContext`, the in-memory session store (class `Store`).
- `priority_date_picker.dfy`: `PriorityDatePicker`, the client-side priority rule.
- `bulk_tutoring.dfy`: `BulkTutoring`, the bulk form (class `Form`).
- `tutoring_request_form.dfy`: `TutoringRequestForm`, the single-request form (class `Form`).
- `tutoring_request_list.dfy`, `tutoring_request_list_simple.dfy`, `raptor_rotation_events.dfy`:
  the three list views.

Parameters stand in for everything outside the code:

- the teacher id and name kept in `localStorage`;
- the current instant, "yesterday" and today's UTC day;
- the Students and Teachers tables, which the route only reads (`Directory`);
- the outcome of every API call (`ApiOutcome`, `PostOutcome`, `RequestOutcome`).

Each outcome is either the response body or the rejected request's error shape.

## Model

| member | source | states |
|---|---|---|
| Calendar.DaysIn | server/routes/tutoring.js:91 | a month has 28 to 31 days; February has 29 exactly in a Gregorian leap year |
| Calendar.Normalize | server/routes/tutoring.js:89-91 | `new Date(year, month - 1, day)` keeps a real calendar day as it is; otherwise it is the day reached by counting `day - 1` calendar days on from the first of the month, one day at a time, with a year 0..99 read as 1900 + year |
| Calendar.NormalizeIdempotent | server/routes/tutoring.js:89-91 | reading a normalised day again changes nothing |
| Calendar.NormalizeExamples | server/routes/tutoring.js:89-91 | 2024-02-30 and 2023-02-29 are read as the 1st of March, 2025-04-31 as 2025-05-01, and year 24 as 1924 |
| Calendar.DayOfWeek | server/routes/tutoring.js:12-17 | the weekday of a calendar day is a number in 0..6 (0 = Sunday) |
| Calendar.KnownWeekdays | server/routes/tutoring.js:12-17 | the weekday rule gives the calendar's weekdays on known days, among them 2024-01-01 (Monday), a leap day, 2000-01-01 (Saturday) and 2023-12-31 (Sunday) |
| Calendar.NextDayNextWeekday | server/routes/tutoring.js:12-17 | consecutive days within a month have consecutive weekdays, modulo 7 |
| Calendar.NextMonthNextWeekday | server/routes/tutoring.js:12-17 | the first of a month falls on the weekday after the last day of the month before, leap Februaries included |
| Calendar.NextYearNextWeekday | server/routes/tutoring.js:12-17 | the 1st of January falls on the weekday after the 31st of December |
| Calendar.NextDayWeekday | server/routes/tutoring.js:12-17 | every calendar day's successor, within a month, across a month or across a year, falls on the next weekday |
| Calendar.IsoDay | client/src/components/PriorityDatePicker.js:53 | for years up to 9999 the ISO day string has ten characters with dashes at positions 4 and 7; later years carry a leading `+` |
| Calendar.ParseDay | server/routes/tutoring.js:89-90 | a zero-padded `YYYY-MM-DD` string, the shape the client sends, is read into its three numbers as the server's split and `parseInt` read it; any string it reads has that shape |
| Calendar.IsoDayRoundTrip | client/src/components/TutoringRequestForm.js:106 | the day string the client sends parses on the server back to the same day, for every year up to 9999 |
| TutoringRoutes.PrioritySubjectForDay | server/routes/tutoring.js:9-28 | a day has no priority subject exactly when it is a Sunday, Wednesday or Saturday |
| TutoringRoutes.PriorityTable | server/routes/tutoring.js:18-26 | CS has priority exactly on Mondays, Math on Tuesdays, Humanities on Thursdays, Science on Fridays |
| TutoringRoutes.SubjectHasOneWeekday | server/routes/tutoring.js:18-26 | a subject holds priority on one weekday only |
| TutoringRoutes.HasSubjectPriority | server/routes/tutoring.js:29-32 | a teacher has priority iff the subject is the day's priority subject; never on a day without tutoring |
| TutoringRoutes.PriorityIsExclusive | server/routes/tutoring.js:29-32 | teachers of two different subjects never both have priority on one day |
| TutoringRoutes.StoredLunches | server/routes/tutoring.js:128-131 | a lunch flag is stored true iff the body's flag is present and true; a missing flag is stored false |
| TutoringRoutes.FirstActive | server/routes/tutoring.js:112-120 | the active-request query returns the first active request for (student, date), or none when none is active |
| TutoringRoutes.FindById | server/routes/tutoring.js:309-313 | the lookup by primary key finds a row carrying that id, or reports that no row carries it |
| TutoringRoutes.Post | server/routes/tutoring.js:83-256 | a submission adds exactly one row when it answers 200, and leaves the table unchanged otherwise; existing ids are kept. The weekday, the priority, the lookup and the stored row all use the normalised calendar day of the submitted string |
| TutoringRoutes.Cancel | server/routes/tutoring.js:307-329 | a cancellation never adds or removes rows; an answer other than 200 leaves the table unchanged |
| TutoringRoutes.ActiveCountAppend | server/routes/tutoring.js:124-133 | appending a row raises the active count of its (student, date) by one iff the row is active for that key |
| TutoringRoutes.ActiveCountZero | server/routes/tutoring.js:122-123 | the active count for a key is zero iff no row is active for that key |
| TutoringRoutes.ActiveCountUpdate | server/routes/tutoring.js:176-178 | replacing one row changes each key's active count by the difference between the new and the old row |
| TutoringRoutes.ActiveCountTwo | server/routes/tutoring.js:112-120 | two different rows active for one key give an active count of at least two |
| TutoringRoutes.Consistent | server/models/TutoringRequest.js:6-43 | in a consistent table, no two active rows share a student and a date |
| TutoringRoutes.OneActivePerKey | server/routes/tutoring.js:112-123 | an active count of at most one per key means no two active rows share that key |
| TutoringRoutes.ActiveIsUnique | server/routes/tutoring.js:112-120 | in a consistent table, two rows active for the same (student, date) are the same row |
| TutoringRoutes.FirstActiveIsTheActive | server/routes/tutoring.js:154 | in a consistent table, `existingRequests[0]` is the one active request for the key |
| TutoringRoutes.PostPreservesConsistent | server/routes/tutoring.js:83-256 | every submission keeps the table consistent, so at most one request stays active per (student, date) |
| TutoringRoutes.AppendKeepsConsistent | server/routes/tutoring.js:124-133 | appending a row with the next id, active only for a key with no active row, keeps the table consistent |
| TutoringRoutes.ReplaceAndAppendKeepsConsistent | server/routes/tutoring.js:176-189 | cancelling a key's active row and appending the key's new active row keeps the table consistent |
| TutoringRoutes.PostRejectsBlockedDay | server/routes/tutoring.js:95-98 | a Sunday, Wednesday or Saturday gets 400 before any lookup, and nothing is written |
| TutoringRoutes.PostCreatesWhenFree | server/routes/tutoring.js:123-133 | with no active request for the key, exactly one request is created: active, owned by the caller, priority 1 iff the caller has priority, else 0, lunches as stored; it becomes the key's only active request |
| TutoringRoutes.PostAsksForOverride | server/routes/tutoring.js:160-174 | when the requester has priority and the holder does not, and there is no override, the answer is 409 with the override offered, and nothing is written |
| TutoringRoutes.PostOverrides | server/routes/tutoring.js:176-189 | with an override, the holder's request becomes cancelled with a reason naming the requester, and an active priority-1 request is appended; every other row is kept, and the key still has exactly one active request |
| TutoringRoutes.PostDeniesOtherConflicts | server/routes/tutoring.js:216-249 | every other conflict is refused without an override and nothing is written: 403 when only the holder has priority, 400 when both or neither do |
| TutoringRoutes.PostSeesCalendarDay | server/routes/tutoring.js:89-120 | two strings naming the same calendar day get the same answer and leave the same table |
| TutoringRoutes.RolledOverDayMeetsBooking | server/routes/tutoring.js:89-120 | a Math teacher asking for "2024-02-30" meets another Math teacher's booking of 2024-03-01 and is refused with 400 |
| TutoringRoutes.CancelPreservesConsistent | server/routes/tutoring.js:307-329 | a cancellation keeps the table consistent |
| TutoringRoutes.CancelMissing | server/routes/tutoring.js:309-313 | an unknown id gets 404 and nothing changes |
| TutoringRoutes.CancelOwnership | server/routes/tutoring.js:316-324 | a caller who does not own the request gets 401 and nothing changes; the owner gets the request back cancelled, and only that row changes |
| TutoringRoutes.FindByIdSameIds | server/routes/tutoring.js:309 | the lookup depends only on the rows' ids |
| TutoringRoutes.CancelIdempotent | server/routes/tutoring.js:307-329 | cancelling twice gives the same answer and table as cancelling once |
| TutoringRoutes.BookingTable.constructor | server/models/TutoringRequest.js:6-43 | the table starts empty and consistent |
| TutoringRoutes.BookingTable.CreateRow | server/routes/tutoring.js:124-133 | `create` appends one active row with the next id and advances the id |
| TutoringRoutes.BookingTable.Submit | server/routes/tutoring.js:83-256 | the handler, run step by step on the table, answers and leaves the table exactly as `Post` says, and keeps the table consistent |
| TutoringRoutes.BookingTable.CancelRequest | server/routes/tutoring.js:307-329 | the cancel handler, run on the table, answers and leaves the table exactly as `Cancel` says, and keeps the table consistent |
| ApiService.FormatError | client/src/utils/apiService.js:69-89 | a response with a non-empty `msg` yields that message; any other response yields "Server error: <status>"; a request without a response yields the no-response message; anything else yields the error's own message |
| ApiService.ResponseTakesPrecedence | client/src/utils/apiService.js:72-80 | when a response is present, the request flag and the error's own message do not matter |
| Sessions.MarkCancelled | client/src/components/Dashboard.js:39-47 | the length and order are kept; the sessions with that id become cancelled and every other session is unchanged |
| Sessions.MarkCancelledNoMatch | client/src/components/Dashboard.js:40-46 | an id matching no session leaves the list equal to the input |
| Sessions.MarkCancelledIdempotent | client/src/components/Dashboard.js:40-46 | marking twice equals marking once |
| Sessions.TeacherNamed | client/src/components/TutoringRequestList.js:60-62 | a request matches the teacher iff it has a teacher with a name of the same length whose letters equal the given name's, case ignored |
| Sessions.TeacherNamedIgnoresCase | client/src/components/TutoringRequestList.js:60-62 | the teacher-name match ignores the case of the stored name |
| Sessions.PeriodLetters | client/src/components/TutoringRequestList.js:98-106 | a letter is listed iff its flag is set, and the letters come in strictly increasing A, B, C, D order |
| Sessions.JoinComma | client/src/components/TutoringRequestList.js:105 | joining n letters with ", " gives 3n - 2 characters: letter k at position 3k, each followed by ", " except the last |
| Sessions.LunchPeriods | client/src/components/TutoringRequestListSimple.js:34-42 | the rendering is empty iff no flag is set; every set letter appears; the set letters stand in A, B, C, D order at every third position, with ", " between them; the rendering has 3n - 2 characters for n set letters, so nothing follows the last letter |
| Sessions.LettersWhenAny | client/src/components/TutoringRequestListSimple.js:35-39 | some letter is listed iff some flag is set |
| Sessions.JoinedInOrder | client/src/components/TutoringRequestListSimple.js:41 | joining keeps every letter and keeps increasing letters increasing |
| TutoringContext.SessionsForStudent | client/src/contexts/TutoringContext.js:51-55 | the result holds exactly the student's sessions whose status is active |
| TutoringContext.SessionsForStudentAfterCancel | client/src/contexts/TutoringContext.js:39-55 | after a cancellation, the cancelled session is no longer among the student's sessions, and every session left was there before |
| TutoringContext.Store.constructor | client/src/contexts/TutoringContext.js:6 | the store starts with no sessions |
| TutoringContext.Store.CreateSession | client/src/contexts/TutoringContext.js:24-35 | on success the new session is appended at the end and returned; on failure the list is untouched and the formatted message is thrown |
| TutoringContext.Store.CancelSession | client/src/contexts/TutoringContext.js:36-50 | on success the session with that id is marked cancelled; on failure the list is untouched and the formatted message is thrown |
| TutoringContext.Store.CreateOverrideSession | client/src/contexts/TutoringContext.js:56-71 | the cancellation comes first, and if it fails nothing is created; otherwise the payload is sent with priority 1 and a reason naming the overriding teacher |
| PriorityDatePicker.PriorityLookup | client/src/components/PriorityDatePicker.js:12-17 | only a one-character key can name a priority subject |
| PriorityDatePicker.WeekdayKey | client/src/components/PriorityDatePicker.js:88 | a weekday becomes a one-digit property key |
| PriorityDatePicker.PickerTableMatchesServer | client/src/components/PriorityDatePicker.js:12-17 | on every day, the client table read with the weekday gives the server table's subject |
| PriorityDatePicker.FindSessionOn | client/src/components/PriorityDatePicker.js:79-81 | the search returns the first session of the list on that day, or none when no session of the list is on that day |
| PriorityDatePicker.ShouldDisableDate | client/src/components/PriorityDatePicker.js:65-93 | a day is disabled iff it is before yesterday, or a Sunday, Wednesday or Saturday, or the student holds an active session on it and the teacher's subject has no priority that day on the server |
| PriorityDatePicker.PastDayDisabled | client/src/components/PriorityDatePicker.js:66-68 | a day before yesterday is disabled |
| PriorityDatePicker.BlockedWeekdayDisabled | client/src/components/PriorityDatePicker.js:69-74 | Sundays, Wednesdays and Saturdays are disabled, whatever the student or teacher |
| PriorityDatePicker.EnabledDays | client/src/components/PriorityDatePicker.js:76-92 | otherwise a day is enabled with no student or no teacher; with both, it is disabled iff the student holds an active session that day and the teacher has no priority on it |
| PriorityDatePicker.GetDateStatusInfo | client/src/components/PriorityDatePicker.js:95-122 | the status is null iff the student, the date or the teacher is missing; otherwise it is available iff the student holds no active session that day, and a booked status carries such a session |
| PriorityDatePicker.StatusNeverOffersOverride | client/src/components/PriorityDatePicker.js:98-109 | as written, the status never offers an override |
| PriorityDatePicker.StatusContradictsPicker | client/src/components/PriorityDatePicker.js:88-119 | a Monday booked by a Math teacher stays enabled for a CS teacher, yet its status says blocked |
| PriorityDatePicker.GetDateStatusInfoByWeekday | client/src/components/PriorityDatePicker.js:95-122 | the corrected status is null iff the student, the date or the teacher is missing; otherwise it is available iff the student holds no active session that day, and it offers an override iff the student is booked and the teacher's subject has the server's priority that day |
| PriorityDatePicker.StatusByWeekdayAgreesWithPicker | client/src/components/PriorityDatePicker.js:65-122 | on a selectable day, the corrected status says blocked iff the picker disables the day, and offers an override only when the server would grant priority |
| BulkTutoring.LunchPeriodOf | client/src/components/BulkTutoring.js:84-91 | the nested RR teacher's lunch wins, then the included RR teacher's, then the student's own; with none of them set, there is no period |
| BulkTutoring.Process | client/src/components/BulkTutoring.js:93-97 | the display name is "[period] name" when a period exists, and the bare name iff none does |
| BulkTutoring.OutcomesPartition | client/src/components/BulkTutoring.js:180-198 | the scheduled list has one entry per created request and the failed list one per failure; together they count every selected student |
| BulkTutoring.AllCreatedNoneFailed | client/src/components/BulkTutoring.js:192-197 | nothing failed iff every request was created |
| BulkTutoring.IsFormValid | client/src/components/BulkTutoring.js:144-155 | the bulk form is valid iff some student is selected and every selected student would pass the single request form's checks with this date and these lunches |
| BulkTutoring.FindIn | client/src/components/BulkTutoring.js:122 | `find` returns the first roster entry with that id, or none when no entry has it |
| BulkTutoring.RemovePreservesNoDuplicates | client/src/components/BulkTutoring.js:139-141 | removing a student keeps the selection free of duplicate ids |
| BulkTutoring.LongDateReadsBack | client/src/components/BulkTutoring.js:202 | the long date reads back field by field: the month's full name and a space, the day with no leading zero, ", ", then the year, which takes exactly four digits up to the year 9999 |
| BulkTutoring.LongDateNamesTheDay | client/src/components/BulkTutoring.js:202 | two days with the same long date are the same day |
| BulkTutoring.LongDateExample | client/src/components/BulkTutoring.js:202 | 2025-10-15 reads "October 15, 2025" and 2024-03-01 reads "March 1, 2024" |
| BulkTutoring.Form.constructor | client/src/components/BulkTutoring.js:82-100 | the roster is the processed API list, and the selection, date, lunches, error and success message start empty |
| BulkTutoring.Form.FindStudent | client/src/components/BulkTutoring.js:122 | the student found is on the roster and has that id |
| BulkTutoring.Form.AddStudent | client/src/components/BulkTutoring.js:118-136 | without a selection nothing happens; an id already selected leaves the list alone and sets the "already in your selection" error; a new one is appended and the selection and error are cleared; the list never holds a duplicate id |
| BulkTutoring.Form.RemoveStudent | client/src/components/BulkTutoring.js:139-141 | exactly the entries with that id are dropped, the rest keep their order, and no entry with that id remains |
| BulkTutoring.Form.Submit | client/src/components/BulkTutoring.js:158-235 | an invalid form reports and sends nothing; otherwise every student is sent in order and lands in the scheduled or the failed list, and the summary records the long date and the chosen lunch letters; the "failed to schedule any" error appears iff nothing was scheduled, and the error is empty iff something was; the full success message (count and long date) appears iff nothing failed, the partial one (both counts) when some failed and some were scheduled; the form is reset iff nothing failed; the student chooser is never touched |
| TutoringRequestForm.Roster | client/src/components/TutoringRequestForm.js:48-56 | a student is on the roster iff the teacher is its R1, R2, R4 or R5 teacher |
| TutoringRequestForm.RosterIgnoresRR | client/src/components/TutoringRequestForm.js:48-56 | the RR teacher does not affect the roster |
| TutoringRequestForm.Validate | client/src/components/TutoringRequestForm.js:84-98 | the form passes iff a student, a date and a lunch are set; otherwise the first failing check reports: student, then date, then lunch |
| TutoringRequestForm.Form.constructor | client/src/components/TutoringRequestForm.js:24-37 | the form starts with no student, no date, no lunch and no message |
| TutoringRequestForm.Form.HandleLunchChange | client/src/components/TutoringRequestForm.js:69-74 | only the named period changes, and it takes the checkbox value |
| TutoringRequestForm.Form.HandleSubmit | client/src/components/TutoringRequestForm.js:76-139 | a failing check sets its message and sends nothing; otherwise the form is posted with at least one lunch; success resets student, date and lunches; failure shows the formatted error and keeps the form |
| TutoringRequestList.FilteredRequests | client/src/components/TutoringRequestList.js:55-86 | the shown requests are exactly those passing the filter; none is cancelled, all have the teacher's name, and all fall on the filter date when one is set |
| TutoringRequestList.SearchSkipsFutureCheck | client/src/components/TutoringRequestList.js:78-82 | with a search term, a request is shown iff its lowercased student name contains the lowercased term, past or not |
| TutoringRequestList.FutureOnlyWithoutSearch | client/src/components/TutoringRequestList.js:84-85 | without a search term, past days are hidden, and today only shows while the clock reads midnight |
| TutoringRequestList.SearchIgnoresCase | client/src/components/TutoringRequestList.js:79 | lower-casing the search term does not change what is shown |
| TutoringRequestList.CancelOffered | client/src/components/TutoringRequestList.js:187-188 | the cancel button appears only on an active request whose teacher is the logged-in teacher, never on a cancelled one or without a stored id |
| TutoringRequestList.OfferedCancelIsAuthorized | client/src/components/TutoringRequestList.js:187-188 | a cancel button is offered only where the server's cancel route answers 200 for the logged-in teacher |
| TutoringRequestListSimple.TodaysRequests | client/src/components/TutoringRequestListSimple.js:21-31 | the result holds exactly today's requests that are not cancelled and carry the teacher's name |
| TutoringRequestListSimple.CancelledLeavesView | client/src/components/TutoringRequestListSimple.js:21-31 | after a cancellation, the view is the old view without the cancelled request, in the same order |
| RaptorRotationEvents.TodaysRequests | client/src/components/RaptorRotationEvents.js:21-26 | a request is kept iff it is dated today and its student's RR teacher is the logged-in teacher |
| RaptorRotationEvents.TodaysRequestsKeepsOrder | client/src/components/RaptorRotationEvents.js:21 | the filter keeps the list's relative order |
| RaptorRotationEvents.CancelledStillShown | client/src/components/RaptorRotationEvents.js:21-26 | the status is not read, so a cancellation does not change how many requests the view shows |

## Left out

- Express, Sequelize and HTTP plumbing: the `GET` routes, eager-loaded includes,
  JSON payloads beyond the status code and the override offer, and logging.
- JavaScript `Date`. A submitted day is the (year, month, day) triple of its
  `YYYY-MM-DD` string, read into a calendar day by `Calendar.Normalize`; the weekday
  follows Sakamoto's rule. Not modelled:
  - malformed date strings: non-digits, a missing field, and the `NaN` weekday they give;
  - a `date` that is not a string, which the handler and the priority helper pass to
    `new Date(date)` instead of splitting it;
  - the time-zone shift of `toISOString`, which makes the client's `YYYY-MM-DD` the UTC day;
  - the `toLocaleDateString` reason strings, which depend on the time zone.
- Concurrency: the handlers are modelled as running one at a time. The source reads
  and then writes with no transaction.
- The `/override` route, which re-dispatches through Express. The `override` field
  of the body stands for it.
- The authentication middleware. The caller's teacher id is an integer parameter.
  The string comparison `TeacherId.toString() !== req.teacher.id` is modelled as
  equality of ids.
- A request body without a `lunches` object. The source reads it only when it creates
  a row (a free day, or a confirmed override), and there it throws and answers 500; the
  model always has a `lunches` value, whose missing keys are stored false. On the
  confirmed-override path that 500 comes after the holder's cancellation was saved, so
  the source then leaves no active request for the student and day although it
  answered 500; `Post`'s promise that an answer other than 200 writes nothing holds
  only because the model has no such body.
- Calendar.ParseDay accepts only the zero-padded shape with a month in 1..12 and a day
  in 1..31. The server's split and `parseInt` also read unpadded fields ("2024-3-1" as
  the 1st of March) and out-of-range ones ("2024-13-01", which `new Date` carries to
  2025-01-01); for those `ParseDay` gives none.
- TutoringRoutes.PostPreservesConsistent: a raw month outside 1..12 or a raw day outside
  1..31, which `new Date` would also carry into another day, cannot be submitted; the
  raw triple takes months 1..12 and days 1..31, and the invariant is proved for those.
- TutoringRoutes.PostCreatesWhenFree: the same limit on the raw month and day.
- TutoringRoutes.BookingTable.Submit: the same limit on the raw month and day.
- `String.prototype.toLowerCase` is modelled on ASCII letters only.
- The `priority` and `conflictReason` fields that `createOverrideSession` adds. The
  server's handler reads only `studentId`, `date`, `lunches` and `override`, so
  they reach no row.
- TutoringRequestForm.Form.HandleSubmit: the `conflicts` branch of the error handler is
  not modelled. The server never sends a `conflicts` field, so that branch never runs.
- `requestedAt` timestamps, loading flags, rendering, navigation, and the student
  search box of the bulk form.
- The cancel handler of the request list (`handleCancelRequest`) and the dashboard's
  fetch. The dashboard's update after a cancel is `Sessions.MarkCancelled`.
- BulkTutoring.Form.AddStudent requires that the selected id is on the roster. The
  roster is the only source of the selection menu. For an id not on it, the source
  appends `undefined` to the selection, and throws only when that id is also already
  selected, where it reads the name of the missing entry.
- The request-list filters read `localStorage.getItem('teacherName')`. A missing
  name, which would throw, is not modelled.
- Ids are positive, so the falsiness of id 0 plays no part.

## Findings

| source | as written | input that shows it | evidently intended | confidence | as-written member | corrected member |
|---|---|---|---|---|---|---|
| client/src/components/PriorityDatePicker.js:98 | `getDateStatusInfo` looks up `SUBJECT_PRIORITIES` with `getDay(date)`. That is the ISO string `YYYY-MM-DD`, not a weekday, so the lookup is always undefined and a booked day always shows "Already booked". | Monday 2025-10-13, a student booked by a Math teacher, picked by a CS teacher: `shouldDisableDate` enables the day, but the status is `blocked` | look the table up with `date.getDay()`, as `shouldDisableDate` does, so that a booked day on the teacher's priority day shows `canOverride` | high (not executed) | PriorityDatePicker.StatusContradictsPicker | PriorityDatePicker.GetDateStatusInfoByWeekday |
