# Digital logbook — a Dafny model of its core

The digital logbook is a desktop application for a school computer
laboratory. Students, working students, teachers and administrators log
in at a lab PC. Every login appends a row to the login log, and a student
login can mark the student present in a class whose schedule window
contains the login time. Teachers create classes (with a schedule string
such as `MWF 8:00 AM-10:00 AM`), enrol students, and generate, initialise,
archive and unarchive per-class attendance sheets. Students register
themselves and wait for an administrator's decision. Students report
equipment problems, which working students forward to the administrators.
Administrators maintain users (also by bulk import of CSV-like rows),
departments and the login-log archive.

The model covers the Go back end's business logic: `attendance.go`,
`logs.go`, `auth.go`, `registration.go`, `feedback.go`, `classes.go`,
`users.go`, `app.go` and `departments.go`. It also covers the class-creation
form of `frontend/src/pages/TeacherDashboard.tsx`. Most source files
become one module each. `attendance.go` becomes two: `Attendance` for the
attendance engine and `Schedule` for its schedule parsing and window check.
The form becomes `ScheduleForm`, and the login log of `logs.go` becomes
`LoginLogs`.

Modelling conventions:

- **The database.** Every table the code reads or writes becomes a field
  of a class, updated in place by that class's methods:
  - `Attendance.AttendanceBook` holds the attendance table (a map keyed by
    class, student and date) and the attendance sheets.
  - `LoginLogs.LoginLogBook` holds the login log.
  - `Classes.ClassBook` holds classes and enrolments.
  - `Registration.RegistrationBook` holds users, student profiles and
    approval rows.
  - `Feedback.FeedbackBook` holds the feedback rows.
  - `Departments.DepartmentBook` holds the departments table.
  - `Users.UserStore` holds the accounts by username.
  - `Auth.AccountBook` holds the credentials.
- **Pure computations.** Each SQL statement's effect is a pure function
  over those values (an upsert's merge, an `UPDATE … WHERE` over the rows
  it selects). Each method is proved equal to that function, and the
  properties of the system are proved about the functions.
- **Outside the program.** The clock (`now`), the host name, and the
  outcome of a write that may fail (`writeOk`, `failing`, `insertFails`,
  `txError`) are parameters. The model therefore states what happens on
  both paths.
- **Row order.** The order of rows a query returns without `ORDER BY` is
  chosen by the store. The model lists a set in some order (`ListSet`) and
  sorts with a stable insertion sort where the query has an `ORDER BY`.

Helper modules:

- `Wrappers`: Option and Result.
- `Text`: split, join, trim, contains, index search, decimal text.
- `Clock`: dates in the form `2006-01-02`, instants, weekdays.
- `Ordering`: lexicographic keys and a sorted insertion.

These modules carry their own contracts but model nothing by themselves.

Where the system's documentation and the code disagree, the model follows
the code:

- Archiving and unarchiving an attendance sheet flips the archive flag of
  every row of that class and date. Neither operation checks the sheet's
  current state, and neither records who did it.
- Regenerating a sheet after a student's login row has disappeared turns
  the student's status back to absent. The earlier time in is kept.
- The automatic mark at login writes `present` with a new time in. It does
  not go through the generator's merge, so it never writes `late` and
  never touches the remark.
- Archiving a date and then unarchiving it return equal counts only when
  no row of that date was archived before.
- Registration stores a password hash (a parameter here), but `Login`
  compares the stored text with the plain password.
- `Login` does not look at the account's status.

## Model

| member | source | states |
|---|---|---|
| App.NullString | app.go:648-653 | the empty text is stored as NULL and any other text as itself |
| App.NullStringRoundTrip | app.go:648-653 | reading a stored text back with NULL as empty gives the original text |
| App.ToArgs | app.go:347-353 | the argument list has one entry per class id, in the same order, each carrying that id |
| App.JoinMarksCount | app.go:365-375 | the comma-joined placeholder list holds exactly as many `?` as there are class ids |
| App.RecentAttendanceQuery | app.go:356-392 | no query is built for an empty class list; otherwise the placeholder text is one `?` per id joined by commas, and the arguments are the ids in order followed by the day count |
| App.CountStatusNone | app.go:494-497 | a history without the counted status counts zero |
| App.CountStatusAll | app.go:494-497 | a history made only of the counted status counts every row |
| App.FirstOnDate | app.go:499-502 | the today's-log slot is the first row dated today, and it is empty exactly when no row is dated today |
| App.Tally | app.go:485-511 | the loop's present count and today's row equal the counting and first-match specifications |
| App.DashboardAsWritten | app.go:494-502 | as written, a history holding only the engine's lower-case statuses counts no present day |
| App.DashboardAsWrittenMissesPresent | app.go:494-497 | a single "present" row counts zero under "Present" and one under "present" |
| App.Dashboard | app.go:494-511 | corrected count: all rows when every row is present, never more than the rows, and today's row as before |
| Clock.ParseFormat | attendance.go:397-401 | formatting a valid date and reading it back with the `2006-01-02` layout gives the same date |
| Clock.FormatParse | attendance.go:397-401 | a text the date layout accepts is exactly the formatting of the date it reads as |
| Attendance.MapsEqualByLookup | attendance.go:490-506 | two attendance tables that agree on every key lookup are equal |
| Attendance.TimeText | attendance.go:459-462 | the `15:04:05` text of a time of day has digits and colons in place and reads back as that time modulo one day |
| Attendance.TimeTextInjective | attendance.go:459 | two times of the same day with the same text are equal |
| Attendance.FirstLogin | attendance.go:430-445 | the login used is a successful login of that student on that date no later than any other, and there is none only when no such login exists |
| Attendance.Classify | attendance.go:447-486 | no login means absent with the "not yet logged in" remark and no times; a login up to ten minutes after the start is present, later is late; the time in is the login's time, the time out the logout's time or NULL, the PC the login's PC or NULL when it is empty, and no remark |
| Attendance.MergeGeneratedIdempotent | attendance.go:490-506 | upserting the same classified values twice gives the row one upsert gave |
| Attendance.MergeGeneratedKeeps | attendance.go:494-496 | an existing row keeps its archive flag and every time or PC the new values leave NULL |
| Attendance.MergeGenerated | attendance.go:490-503 | a new row takes the classified values unarchived; on an existing row each non-NULL new time in, time out or PC replaces the old one and a NULL keeps it, the status is replaced, the archive flag kept; with a new time in a NULL, empty or not-logged-in remark becomes NULL and any other remark stays; without one a non-empty new remark replaces the old and an empty one keeps it |
| Attendance.GeneratedRemark | attendance.go:484-503 | a student without a login carries the not-logged-in remark; with a login a new row has no remark, and an existing row loses a NULL, empty or not-logged-in remark and keeps any other; so a student with a login never carries the not-logged-in remark |
| Attendance.RegenerationRevertsToAbsent | attendance.go:494-497 | regenerating without a login turns a present row back to absent and keeps its time in |
| Attendance.MergeInitialize | attendance.go:167-184 | initialising inserts an absent row with the not-logged-in remark for a new student; an existing row changes at most its remark, which it gains exactly when the row has no time in and an empty remark |
| Attendance.MergeStudentLogin | attendance.go:241-253 | a login upsert makes the row present at that PC, keeps an earlier time in, sets the time in to now when there was none, clears only the not-logged-in remark, and keeps time out and archive flag |
| Attendance.MergeRecordAttendance | attendance.go:36-45 | a manual upsert sets status and remark, takes each non-empty time, and keeps an existing row's other times, PC and flag |
| Attendance.AutoMarkUpdate | attendance.go:567-574 | the login-time update writes present, the current time and the PC and keeps remark, time out and flag |
| Attendance.AutoMarkIgnoresLateness | attendance.go:447-574 | a login the generator classifies as late is written present by the automatic mark |
| Attendance.GenAllAt | attendance.go:430-515 | after generating a roster, each roster key holds the merge of its previous row with that student's classification, a failed write leaves it, and every other key is untouched |
| Attendance.GenAllTwice | attendance.go:430-515 | generating the same sheet twice from the same logs gives the table that generating once gave |
| Attendance.Prepare | attendance.go:376-401 | each error is reported exactly when every earlier check passed and its own fails: unknown class, then missing or empty schedule, then an unparsable start time (with its reason), then an invalid date; otherwise it yields the start time and the date |
| Attendance.InitKeys | attendance.go:167-176 | the keys initialised are exactly the actively enrolled students of the class on that date |
| Attendance.InitAll | attendance.go:167-184 | initialising adds exactly the missing keys of the active roster |
| Attendance.InitAllEffect | attendance.go:167-184 | a new key gets the absent row; an existing row changes at most its remark; rows of other sheets are untouched |
| Attendance.InitAllIdempotent | attendance.go:167-184 | initialising a sheet twice gives the table one initialisation gave |
| Attendance.SheetFlag | attendance.go:661-723 | archiving or unarchiving a sheet sets the flag of every row of that class and date and changes nothing else |
| Attendance.ArchiveThenUnarchiveSheet | attendance.go:661-723 | archiving then unarchiving a sheet leaves the table as unarchiving alone does |
| Attendance.Candidates | attendance.go:532-553 | a class is considered at login exactly when it exists, the student's enrolment in it is active, the class is active, and the student has a row in it for today |
| Attendance.Windows | attendance.go:554-565 | the window is checked for exactly the candidate classes |
| Attendance.WindowsMeaning | attendance.go:565 | a class's check crashes exactly when its schedule makes the window test index past the end, and hits exactly when the test accepts `now` |
| Attendance.MarkAllAdd | attendance.go:567-576 | marking one more class changes only that class's row for today |
| Attendance.AttendanceBook.Generate | attendance.go:372-522 | a failed preparation changes nothing; otherwise every student on the roster is upserted from their first login of the day and the sheet is recorded |
| Attendance.AttendanceBook.GenerateRows | attendance.go:430-515 | the loop over the roster leaves the table the generation function describes |
| Attendance.AttendanceBook.Initialize | attendance.go:162-196 | the table after initialisation is the initialisation function's |
| Attendance.AttendanceBook.RecordStudentLogin | attendance.go:224-265 | refused and nothing written unless the student is actively enrolled; otherwise only today's row gets the login upsert |
| Attendance.AttendanceBook.RecordAttendance | attendance.go:19-56 | refused and nothing written unless the student is actively enrolled; otherwise only today's row gets the manual upsert |
| Attendance.AttendanceBook.AutoMark | attendance.go:523-585 | at login, only classes whose window accepts `now` and whose write succeeds are marked; it completes with all of them unless some window check crashes |
| Attendance.AttendanceBook.MarkLoop | attendance.go:545-583 | the loop marks a subset of the hits, crashes exactly when a candidate's check crashes, and otherwise marks every hit |
| Attendance.AttendanceBook.SetSheetArchived | attendance.go:661-723 | the table after archiving or unarchiving is the sheet-flag function's |
| Schedule.ParseClock | attendance.go:647 | a clock accepted by the `3:04 PM` layout is a whole minute of the day |
| Schedule.ParseClockText | attendance.go:646-647 | the text `h:mm AM/PM` parses back to its hour in 24-hour form and its minute |
| Schedule.ParseStartTime | attendance.go:629-654 | fewer than three tokens is a format error; otherwise the start is the second token with the third cut at its first dash, read as a clock |
| Schedule.WithinScheduleAsWritten | attendance.go:586-626 | as written, fewer than five tokens is never within the window; the index crash happens exactly when there are five tokens, the first names today's day and the start time parses; a hit needs today's day prefix in the first token |
| Schedule.WithinSchedule | attendance.go:586-626 | corrected: within means six or more tokens, today's day in the first, both clocks parse, and now is from ten minutes before the start up to the end |
| Schedule.WithinScheduleAgrees | attendance.go:586-626 | wherever the written test gives an answer, the corrected one gives the same answer, and it answers no where the written test crashes |
| Schedule.FivePieceSchedulePanics | attendance.go:588-610 | a five-token schedule whose day and start match indexes a sixth token that is not there |
| ScheduleForm.SortDays | frontend/src/pages/TeacherDashboard.tsx:705-708 | the selected days are reordered Monday to Sunday, keeping every selection |
| ScheduleForm.OnlyTueThu | frontend/src/pages/TeacherDashboard.tsx:721-722 | the two-day special case holds only for Tuesday and Thursday |
| ScheduleForm.TthIsPlainConcatenation | frontend/src/pages/TeacherDashboard.tsx:721-725 | the TTH special case writes what the plain join of abbreviations writes anyway |
| ScheduleForm.FormatSchedule | frontend/src/pages/TeacherDashboard.tsx:701-732 | the schedule text is empty exactly when no day is selected |
| ScheduleForm.FormatScheduleTokens | frontend/src/pages/TeacherDashboard.tsx:701-732 | a formatted schedule splits into exactly four space-separated tokens |
| ScheduleForm.FormatThenParseStart | frontend/src/pages/TeacherDashboard.tsx:701-732 | the server reads back the start time the form encoded, in 24-hour form |
| ScheduleForm.FormatWindowClosed | frontend/src/pages/TeacherDashboard.tsx:701-732 | a schedule written by the form is never inside the login window, as written or corrected |
| ScheduleForm.Hour24 | frontend/src/pages/TeacherDashboard.tsx:686-694 | the 24-hour hour is below 24, is afternoon exactly for PM, and agrees with the 12-hour hour modulo 12 |
| ScheduleForm.ConvertTo24Hour | frontend/src/pages/TeacherDashboard.tsx:686-694 | the result is `HH:MM` whose digits read as the 24-hour hour and the minute |
| ScheduleForm.Hour24AgreesWithParser | frontend/src/pages/TeacherDashboard.tsx:686-694 | the form's hour conversion agrees with the server's clock parser |
| ScheduleForm.ToggleDay | frontend/src/pages/TeacherDashboard.tsx:676-683 | toggling a day flips its membership and keeps every other day |
| ScheduleForm.ToggleTwice | frontend/src/pages/TeacherDashboard.tsx:676-683 | toggling a day twice restores the selection's members, and the list itself when the day was off |
| ScheduleForm.RemoveAppended | frontend/src/pages/TeacherDashboard.tsx:676-683 | switching off a day just switched on gives back the earlier list |
| ScheduleForm.SubmitCheck | frontend/src/pages/TeacherDashboard.tsx:741-763 | the form is accepted exactly when the EDP code, subject code and title are filled and a day is selected, with each message in the order checked |
| ScheduleForm.SubmittedScheduleNonEmpty | frontend/src/pages/TeacherDashboard.tsx:741-776 | an accepted form sends a non-empty schedule whose start time the server can parse |
| LoginLogs.CountSplitByDate | logs.go:876-929 | a date's rows are counted once, either as unarchived or as archived |
| LoginLogs.ArchiveDateTwice | logs.go:876-902 | after archiving a date no unarchived row of that date is left, so archiving it again changes nothing |
| LoginLogs.ArchiveThenUnarchiveCounts | logs.go:876-929 | unarchiving a date just archived reports every row of that date, which equals the archive count only when none was archived before |
| LoginLogs.ArchiveThenUnarchiveRows | logs.go:876-929 | archiving then unarchiving a date leaves every row of that date unarchived and other dates untouched |
| LoginLogs.Truncate | logs.go:1351-1356 | a text within the limit is unchanged; a longer one keeps its first limit-minus-three bytes followed by `...` |
| LoginLogs.Unarchived | logs.go:403 | the listing keeps exactly the rows whose archive flag is not true |
| LoginLogs.AllLogs | logs.go:361-449 | the listing holds the unarchived rows, at most 1000 of them |
| LoginLogs.AllLogsShowsUnarchived | logs.go:403-405 | every listed row is an unarchived row of the log |
| LoginLogs.AllLogsNewestFirst | logs.go:404 | listed rows are ordered from the latest login to the earliest |
| LoginLogs.AllLogsOmitsOnlyOlder | logs.go:403-405 | an unarchived row left out of a full listing is no newer than any row listed |
| LoginLogs.LoginLogBook.Update | logs.go:876-929 | one `UPDATE` sets the selected rows and returns how many it selected |
| LoginLogs.LoginLogBook.ArchiveByDate | logs.go:876-902 | archives every unarchived row of the date, stamped with time and admin, and returns their number |
| LoginLogs.LoginLogBook.UnarchiveByDate | logs.go:903-929 | unarchives every archived row of the date and returns their number |
| LoginLogs.LoginLogBook.ArchiveByIds | logs.go:1157-1200 | an empty list is an error; otherwise archives the listed rows whose flag is false and returns their number |
| LoginLogs.LoginLogBook.UnarchiveByIds | logs.go:1201-1240 | an empty list is an error; otherwise unarchives the listed archived rows and returns their number |
| LoginLogs.LoginLogBook.ArchiveSelected | logs.go:198-236 | an empty list is an error; otherwise every listed row is stamped archived whatever its flag |
| LoginLogs.LoginLogBook.AppendSuccess | auth.go:265-279 | appends one successful login row with the next id and returns that id |
| LoginLogs.LoginLogBook.CloseLatest | auth.go:79-105 | closes the user's open session with the latest login, or changes nothing when none is open |
| Auth.DetectImageMimeType | auth.go:238-264 | inputs under four bytes are opaque; PNG, GIF and WebP are recognised exactly by their signatures, and every other input is taken for JPEG |
| Auth.ShortJpegIsOpaque | auth.go:239-241 | a three-byte JPEG start is too short to be recognised |
| Auth.PngSignatureSniffed | auth.go:248-250 | the PNG file signature is recognised as PNG |
| Auth.FreshLoginIsLatest | auth.go:54-105 | a login just appended, later than the user's other open sessions, is the only session a logout closes |
| Auth.AccountBook.Login | auth.go:17-71 | succeeds exactly for a known user with that password; a failure writes nothing; a success logs one row under the host name or "Unknown", and starts the attendance mark exactly for students and working students |
| Auth.AccountBook.ChangePassword | auth.go:120-156 | an unknown user or wrong current password is refused and changes nothing; otherwise only that user's password is replaced |
| Auth.ChangedPasswordAuthenticates | auth.go:120-156 | after a change the new password authenticates, the different old one does not, and no other user is affected |
| Auth.Logout | auth.go:72-109 | at most one row changes, and it is the user's latest open session |
| Registration.EmailOkIff | registration.go:277-280 | the e-mail test accepts exactly the texts the e-mail pattern describes |
| Registration.CleanPhone | registration.go:288 | removing dashes and spaces keeps every other character |
| Registration.PhoneOkIff | registration.go:287-289 | the phone pattern accepts exactly 7 to 15 digits (its 09-prefixed branch adds nothing) |
| Registration.ContactAccepted | registration.go:283-291 | a contact number passes exactly when it holds only digits, dashes and spaces with 7 to 15 digits |
| Registration.PatternsNotBlank | registration.go:274-291 | an e-mail or contact number the pattern accepts is never blank, so the blank checks are not shadowed |
| Registration.ContactError | registration.go:273-291 | the e-mail and contact checks pass exactly when the e-mail matches and the contact is digits, dashes and spaces of the right length |
| Registration.StudentIdError | registration.go:257-263 | the student id passes exactly when it is not blank and 4 to 50 bytes long |
| Registration.NameError | registration.go:265-271 | the names pass exactly when neither first nor last name is blank |
| Registration.IdentityError | registration.go:257-291 | the identity fields pass exactly when id, names, e-mail and contact all pass, reporting the first failure |
| Registration.PasswordError | registration.go:293-302 | the password passes exactly when it is not blank, at least 8 bytes and equal to its confirmation; the mismatch is reported only after both other checks pass |
| Registration.Validate | registration.go:256-305 | a form is accepted exactly when every check passes, and a refusal names the first failing check in source order |
| Registration.ValidateMessages | registration.go:256-305 | every refusal is one of the eleven messages of the checks |
| Registration.BlankPasswordIsMissing | registration.go:294-296 | an otherwise valid form with a blank password is refused as missing a password |
| Registration.SpacesPasswordIsMissing | registration.go:294-299 | eight spaces are long enough but still refused as a missing password |
| Registration.ShortPasswordIsTooShort | registration.go:297-299 | a non-blank password under eight bytes is refused as too short |
| Registration.MismatchReportedLast | registration.go:300-302 | a valid form whose confirmation differs is refused as a mismatch |
| Registration.Decide | registration.go:207-224 | a pending account becomes active and enabled or rejected and disabled; any other account and every other user is unchanged |
| Registration.DecideFinal | registration.go:217-221 | once decided, a second decision changes nothing |
| Registration.Settle | registration.go:227-238 | every pending approval row of the user takes the new status, approver, reason and time; all other rows stay |
| Registration.SettleFinal | registration.go:234-238 | settling leaves no pending row for the user, so settling again changes nothing |
| Registration.RegistrationBook.SubmitRegistration | registration.go:51-133 | a failed check, taken id or taken e-mail is refused in that order and writes nothing; otherwise a pending disabled account, its profile and a pending approval are inserted together under a fresh id |
| Registration.RegistrationBook.Insert | registration.go:85-127 | the three inserts use the next id, which no account had |
| Registration.RegistrationBook.ProcessRegistration | registration.go:185-255 | an unknown action or a rejection without a reason is refused with no change; otherwise the users are Decide of the old and the approvals Settle of the old; the store stays well formed |
| Feedback.Condition | feedback.go:206-225 | an answer of "no" is "Not Working" and any other answer is "Good" |
| Feedback.Parts | feedback.go:228-243 | there are no parts exactly when every issue text is empty, at most five, none empty, and a computer issue comes first |
| Feedback.CombineComments | feedback.go:245-251 | the loop joins the parts with `; ` |
| Feedback.JoinNonEmpty | feedback.go:245-251 | the join is empty exactly when there are no parts, and starts with the first part |
| Feedback.CommentsNullIffNoIssue | feedback.go:228-260 | the stored comment is NULL exactly when every issue text is empty, and begins with the computer issue when there is one |
| Feedback.ForwardRow | feedback.go:348-353 | forwarding sets status, forwarder, time and notes and changes nothing else |
| Feedback.PendingIn | feedback.go:348-404 | the rows a forward can change are exactly the listed pending rows |
| Feedback.ForwardRows | feedback.go:348-404 | the listed pending rows are forwarded and every other row is unchanged |
| Feedback.ForwardMovesPending | feedback.go:342-419 | forwarding removes the listed ids from the pending set, adds the listed pending ones to the forwarded set, and leaves forwarded rows alone |
| Feedback.ForwardTwice | feedback.go:342-419 | forwarding the same ids again changes nothing |
| Feedback.DisplayName | feedback.go:111-114 | a student's name is exactly `Last, First`, followed by ` Middle` when the middle name is not NULL |
| Feedback.DisplayNameLastName | feedback.go:111-114 | the first comma of the displayed name falls right after the last name |
| Feedback.ForwarderText | feedback.go:46-53 | the forwarder's name text is never NULL: with both names it is the student display form `Last, First[ Middle]`; without a last name it is the first name (or empty) and the middle name, with no comma |
| Feedback.ForwardedByName | feedback.go:46-105 | the forwarder's name is set exactly when its text is not empty: absent when no profile name is known, present whenever a last, middle or non-empty first name is |
| Feedback.FeedbackBook.Save | feedback.go:192-271 | a failed insert stores nothing; otherwise one pending row with the four conditions, the PC name or "Unknown" and the combined comment is added under a fresh id |
| Feedback.FeedbackBook.Forward | feedback.go:342-374 | succeeds exactly when the row exists and is pending, and then forwards only it; otherwise the error and no change |
| Feedback.FeedbackBook.ForwardMany | feedback.go:375-429 | an empty list is an error; otherwise the listed pending rows are forwarded, their number returned, and none forwarded is an error |
| Classes.TeacherClasses | classes.go:198 | a class is in a teacher's listing exactly when it is that teacher's, active, and its archive flag is false or NULL |
| Classes.TeacherClassesAfter | classes.go:198 | deleting or archiving a class removes exactly it from every teacher's listing; unarchiving an active class puts it back into its teacher's listing |
| Classes.NameKeyOrder | classes.go:619 | roster order is by last name, then first name, each compared without regard to letter case |
| Classes.EnrollAll | classes.go:768-805 | every listed student is active in the class and every other enrolment is kept |
| Classes.EnrollAllExtend | classes.go:783-797 | enrolling one more student extends the batch by that one enrolment |
| Classes.SortedRoster | classes.go:600-661 | the roster lists each student once with their name, sorted by last and first name |
| Classes.ClassBook.Enroll | classes.go:747-767 | a successful write makes the enrolment active (re-activating a dropped one) and changes nothing else |
| Classes.ClassBook.EnrollMany | classes.go:768-805 | all-or-nothing: every listed student enrolled when no write fails, otherwise no change |
| Classes.ClassBook.UnenrollClass | classes.go:806-826 | every enrolment of the class is dropped and other classes' enrolments stay |
| Classes.ClassBook.UnenrollPair | classes.go:827-843 | the pair's enrolment is dropped when it exists, otherwise nothing changes |
| Classes.ClassBook.ClassStudents | classes.go:600-661 | lists each actively enrolled student with a profile once, sorted by name |
| Classes.ClassBook.ClassesByCode | classes.go:844-925 | lists each class with the EDP code once, newest first |
| Classes.ClassBook.JoinByCode | classes.go:926-966 | no active class with the code is an error; when the student is already active in a matching class, the newest such class is returned with no write; otherwise the student is enrolled in the newest matching class, or the write failure is reported |
| Classes.ClassBook.DeleteClass | classes.go:579-599 | deleting a class only marks it inactive |
| Classes.ClassBook.SetArchived | classes.go:1104-1151 | archiving or unarchiving sets only that class's archive flag |
| Classes.ClassBook.TeacherId | classes.go:967-983 | a teacher's id is their user id, and a non-teacher is an error |
| Departments.AssignedTeachers | departments.go:105-114 | the teachers counted are exactly those assigned to the department |
| Departments.Rename | departments.go:82-98 | the row moves to the new code with the new values and every other row stays |
| Departments.RenameBack | departments.go:82-98 | renaming to a free code and back restores the table |
| Departments.RenameSameKey | departments.go:82-98 | updating under the same code only replaces that row |
| Departments.InUseMessage | departments.go:111-113 | a refused deletion says that the department cannot be deleted |
| Departments.DepartmentBook.Create | departments.go:65-81 | an existing code is refused with no change; otherwise an active row is added with an empty description as NULL |
| Departments.DepartmentBook.Update | departments.go:82-98 | a new code taken by another row is refused; a missing old code changes nothing without error; otherwise the row is renamed and updated |
| Departments.DepartmentBook.Delete | departments.go:99-130 | refused while any teacher is assigned, with their count; a missing code is an error; otherwise only that row is removed |
| Departments.DepartmentBook.List | departments.go:25-64 | lists every department once, ordered by code |
| Departments.CreateThenDelete | departments.go:65-130 | creating a fresh code and deleting it restores the table |
| Users.DuplicateMessage | users.go:312-331 | every duplicate-account message opens with the warning sign and ` This ` |
| Users.CreateUserCheck | users.go:115-139 | an account is accepted exactly when the role's username is present, a working student has both names, and the username is free; the username is the student id for students and the employee id otherwise |
| Users.CreateUserCheckMessages | users.go:123-139 | each refusal carries the message of the first failing check |
| Users.WorkingStudentIdCheckUnreachable | users.go:131-134 | the separate working-student id check can never be the one that refuses |
| Users.CreateUserEffect | users.go:115-166 | succeeds exactly when the checks pass and both inserts succeed; a refused check or failed account insert leaves the accounts; otherwise the new username is added and existing accounts kept; a role without a profile table, or a failed profile insert, leaves the account without a profile (the two inserts are not one transaction); an admin profile stores no contact number, the others the given one |
| Users.UserStore.CreateUser | users.go:115-166 | the store after creation is the creation function's |
| Users.DetectedMeaning | users.go:663-721 | each detected column is the first header naming that field, and a field is missing only when no header names it |
| Users.DetectColumns | users.go:663-721 | the header loop detects exactly the first matching header of each field |
| Users.Fallback | users.go:396-408 | without a header the columns are 0, 1, 2, with middle name and contact only when the first row is wide enough |
| Users.ColumnsFor | users.go:378-408 | a header row uses its detected columns when it has any; without a header row, or when the header names no known column, the positional fallback applies |
| Users.GetColumnValue | users.go:724-729 | a found column inside the row gives the trimmed cell, anything else the empty text |
| Users.Pad3 | users.go:415-417 | a short row is padded with empty cells to three, and a longer one is unchanged |
| Users.Extract | users.go:419-425 | corrected extraction: a field with no column is empty |
| Users.ExtractAgrees | users.go:419-425 | with every optional column present both extractions agree; as written, a missing one reads column 0 |
| Users.HeaderlessRowCopiesCode | users.go:396-425 | the headerless row `1, Al, Roy` gets the code `1` as middle name, e-mail and contact as written, and empty fields when corrected |
| Users.NameWithIdIsHeader | users.go:380-393 | a first row whose name contains "id" is taken for a header and skipped |
| Users.PrepareBulk | users.go:414-430 | as written: a bulk row is accepted exactly when the code and both names extracted with a missing column reading as column 0 are not empty, and its fields are that extraction; otherwise it is refused as missing a field |
| Users.PrepareBulkCorrected | users.go:414-430 | corrected: the same acceptance with the corrected extraction, so an optional field the column map lacks is empty |
| Users.PrepareBulkAgrees | users.go:419-425 | with every optional column in the map the written and corrected preparations give the same row |
| Users.HeaderlessRowPrepared | users.go:396-425 | the headerless row `1, Al, Roy` is prepared with `1` as middle name, e-mail and contact as written, and with those empty when corrected |
| Users.PrepareSimple | users.go:472-496 | a simple row is accepted exactly when it has three cells whose trimmed code and names are not empty; fewer cells are refused as short, empty fields as missing; an accepted row takes code, names, middle name (fourth cell) and contact (fifth cell) by position, trimmed, with no e-mail |
| Users.RunCreatesDistinct | users.go:410-447 | an import run keeps every existing account unchanged, and the rows it creates name distinct usernames that were new and are now accounts |
| Users.CountsCover | users.go:449-454 | successes and errors add up to the rows processed |
| Users.UserStore.ImportRows | users.go:410-447 | the loop's accounts, successes and error messages are the import specification's, and they add up to the rows |
| Users.UserStore.ProcessBulkRecords | users.go:375-457 | the total is the rows after any header, successes plus errors equal it, and the accounts are the import of the rows prepared as written |
| Users.UserStore.ProcessBulkRecordsSimple | users.go:458-526 | the same for the simple layout, which skips a first row mentioning student, code or name |

## Left out

- I/O and the environment. The database driver, connection errors, the
  text of database errors, logging, the host-name lookup and the clock are
  parameters or are left out. Error results keep only the program's own
  message prefix.
- Concurrency. `Login` starts the attendance mark in a goroutine. The
  model only reports, in `autoAttendance`, whether the mark is started.
  The mark itself is `AttendanceBook.AutoMark`, a separate call. Its
  `Crashed` outcome stands for the index panic inside that goroutine. Go
  does not recover it, so in the program the panic ends the whole
  process, not only the mark; the model stops at the rows written so far.
- Exports. CSV and PDF exports, photo upload, `loadUserProfile`,
  `parsePDF`, `parseDOCX`, text extraction and file decoding feed no core
  logic here.
- The read-only listings, except `GetAllLogs`, `GetClassStudents`,
  `GetClassesByEDPCode`, `GetDepartments` and the filter of
  `GetTeacherClasses` (`Classes.TeacherClasses`). The other listings are
  joins that compute nothing further.
- The attendance rate. It is a floating-point division.
- Users.CreateUserEffect: the `name` parameter and the full name the bulk
  importers build are not modelled, because `CreateUser` never stores that
  parameter.
- Auth.AccountBook.Login: the error path of the credential query is not
  modelled. A missing user and a wrong password give the same message.
- Registration.RegistrationBook.SubmitRegistration: the password hash is
  a parameter. The bcrypt computation is not modelled.
- Registration.RegistrationBook.ProcessRegistration: failures inside the
  transaction (begin, update, commit) are not modelled. Only the checks
  before it and the effect of a successful commit are.
- Duplicate definitions. `logs.go` defines `GetArchivedLogs` and
  `UnarchiveLogs` twice. The later definitions, the ones that return
  counts, are modelled.
- Auth.DetectImageMimeType: JPEG is the fall-back answer, so a JPEG
  signature only implies the JPEG answer. Its own branch is not
  distinguishable from the fall-back.
- The rest of `TeacherDashboard.tsx` (rendering, state hooks, other
  handlers) is user-interface code. The other front-end files are not
  part of this model.
- Text functions. `Lower` folds only ASCII letters, and lengths are in
  characters, with `ByteLen` counting UTF-8 bytes where the source uses
  `len`. No Unicode case folding or normalisation is modelled.
- Collation. The store's default collation compares text without regard
  to letter case, in `ORDER BY`, in `WHERE … = ?` and in unique keys.
  `ClassStudents`, `SortedRoster` and `DepartmentBook.List` sort on names
  and codes folded to lower case, as that collation orders ASCII letters;
  its weights for accented letters and punctuation are not modelled, and
  there the model's order is code-point order. Lookups and key collisions,
  listed below, are exact in the model: a username, e-mail, department
  code or EDP code matches only the same text, letter case included.
- Auth.AccountBook.Login: the account is found by exact username, where
  `WHERE username = ?` also finds it under another letter case.
- Auth.AccountBook.ChangePassword: the same exact username lookup.
- Registration.RegistrationBook.SubmitRegistration: the taken-username and
  taken-e-mail checks are exact, where the store's comparison ignores case.
- Users.CreateUserCheck: the `taken` set is tested by exact membership,
  where the duplicate-username query ignores case.
- Departments.AssignedTeachers: counts teachers whose code is exactly the
  given one, where the store's `=` also counts another letter case.
- Departments.DepartmentBook.Create: a code differing from an existing one
  only in letter case is stored as a second row, where the store's unique
  key refuses it.
- Departments.DepartmentBook.Update: the old-code lookup and the new-key
  collision are exact.
- Departments.DepartmentBook.Delete: the code lookup and the usage count
  are exact.
- Classes.ClassBook.ClassesByCode: the EDP-code match is exact, and so is
  the one `ClassBook.JoinByCode` relies on.
- Attendance.MergeGenerated: the remark is compared with `Not yet logged
  in` exactly, where the table's case-insensitive collation also matches
  it under another letter case; `Attendance.GeneratedRemark` inherits this.
- Attendance.MergeStudentLogin: the same exact comparison with the
  sentinel. (`Attendance.MergeInitialize` compares the remark only with
  the empty text, where letter case plays no part.)
- Column defaults. Some inserts leave columns to the table's defaults,
  which no schema in the repository states. The model assumes
  `is_archived` false for a new login row
  (`LoginLogs.LoginLogBook.AppendSuccess`, and through it
  `Auth.AccountBook.Login`) and `is_active` true for a new department
  (`Departments.DepartmentBook.Create`). Older login rows with a NULL flag
  are not modelled, so `LoginLogBook.ArchiveByIds`, which matches only a
  false flag, never meets one.
- Row order of `ORDER BY`. Ties between equal keys come out in the order
  the model lists them. The store leaves them unspecified.

## Findings

| source | as written | input that shows it | evidently intended | confidence | as-written member | corrected member |
|---|---|---|---|---|---|---|
| attendance.go:588-610 | the length guard admits five tokens, then `parts[5]` is read | schedule `Mon 8:00 AM -10:00 AM` at 8:00 on Monday 2024-01-01 (day and start match, sixth token missing) | a schedule with fewer than six tokens is outside the window | high (not executed) | Schedule.FivePieceSchedulePanics | Schedule.WithinSchedule |
| app.go:494-497 | the dashboard counts rows whose status is `Present` | a history holding one row with status `present`, the only spelling the attendance code writes | count the rows whose status is `present` | high (not executed) | App.DashboardAsWrittenMissesPresent | App.Dashboard |
| users.go:396-425 | a missing optional column reads as index 0 and passes the `>= 0` test, so the first cell is copied | the headerless row `1, Al, Roy` is stored with middle name, e-mail and contact `1` | a field with no column is empty | high (not executed) | Users.HeaderlessRowPrepared | Users.PrepareBulkCorrected |
