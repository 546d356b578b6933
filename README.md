# Attendance system — a verified model of its request handlers

The attendance system is a small Flask application. It has three tables:
students, teachers and attendance rows. Students and teachers register and log
in with an email and a password.

- A signed-in teacher loads the roster of a section (semester, stream,
  division) for a lecture. The teacher then submits one status per student,
  and one attendance row is stored per roster student.
- A signed-in student sees a per-subject summary of their own rows: total,
  present, absent and percentage present.

This project models the handlers of `super_attendance_project/app.py` with the
web framework taken away. One object, `App.AttendanceApp`, holds the three
tables as sequences, plus the current client's session as a map. Each request
handler is a method that reads a form or query string (a `map<string, string>`)
and updates those fields.

Modules:

- `Base` — `Option`, `Result`, the failure reasons, and "first index where" and
  "filter" over sequences.
- `Text` — Python's `str.strip()` with the full `isspace` set, `str.lower()`
  for ASCII capitals, `.strip().lower()` on emails, and `str(n)` for ids.
- `Records` — the three row types, the queries the handlers run
  (`filter_by(...).first()`, `.all()`, `query.get`), and the store invariant:
  - ids are 1, 2, 3, … in insertion order;
  - stored emails are normalised and unique per role;
  - every attendance row points at an existing student and teacher.
- `Summary` — the student dashboard's two loops (count per subject into a
  dict, then build one summary line per dict entry), the specification they
  meet, and the properties of the summary.
- `Recording` — the teacher dashboard: the GET guard that decides whether a
  roster is loaded, and the rows a POST appends.
- `Sessions` — the session dictionary, `login_user`, and the role gate of
  both dashboards.
- `App` — the class with one method per handler, plus two end-to-end
  scenarios.

Password hashing is a pair of function values `hash(salt, password)` and
`check(hash, password)`, fixed when the object is created. The model assumes
only one thing about them, as part of `Valid()`: a hash made from a password
checks against that password. The random salt of `generate_password_hash` is a
parameter of the registration methods.

A `request.form[...]` read of a missing field makes Flask answer 400. The model
returns `Err(BadRequest)` for it and changes nothing. Every redirect-with-flash
outcome is an `Err` with its reason: `DuplicateEmail`, `InvalidCredentials`,
`NotLoggedIn` or `UserNotFound`. A dashboard reached with the role but without
`user_id` in the session raises `KeyError` in Python. That case is modelled as
`Err(MissingSessionKey)`.

## Model

| member | source | states |
|---|---|---|
| `Base.FirstWhere` | super_attendance_project/app.py:90 | `.first()`: the index found is the first whose element satisfies the filter; none exactly when no element does |
| `Base.Filter` | super_attendance_project/app.py:229-231 | `.all()`: every element returned satisfies the filter and comes from the table, and every element of the table that satisfies it is returned |
| `Base.FilterCounts` | super_attendance_project/app.py:229-231 | each element satisfying the filter is returned exactly as often as it occurs in the table, and no other element is returned |
| `Records.StudentByEmail` | super_attendance_project/app.py:90 | the student found has the email asked for; none is found exactly when no student has it |
| `Records.TeacherByEmail` | super_attendance_project/app.py:173 | the teacher found has the email asked for; none is found exactly when no teacher has it |
| `Records.StudentById` | super_attendance_project/app.py:132 | `query.get`: the row found has that primary key; none exactly when no row has it |
| `Records.TeacherById` | super_attendance_project/app.py:213 | as `StudentById`, for teachers |
| `Records.Roster` | super_attendance_project/app.py:229-231 | every roster entry is a student of the requested section, and every student of the section is in the roster |
| `Records.RowsOfStudent` | super_attendance_project/app.py:138 | exactly the attendance rows whose `student_id` is the student's |
| `Records.StudentFoundAfterRegistration` | super_attendance_project/app.py:90-103 | after a student is added under an unused email, the email lookup finds exactly that student |
| `Records.TeacherFoundAfterRegistration` | super_attendance_project/app.py:173-184 | the same for teachers |
| `Records.AddStudentKeepsInvariant` | super_attendance_project/app.py:16-23 | adding a student with the next id and an unused normalised email keeps ids, email uniqueness and foreign keys valid |
| `Records.AddTeacherKeepsInvariant` | super_attendance_project/app.py:27-32 | the same for a teacher |
| `Records.AddRowKeepsInvariant` | super_attendance_project/app.py:36-47 | adding a row with the next id that points at an existing student and teacher keeps the invariant (the foreign keys of lines 46-47) |
| `Records.StudentByIdIsPosition` | super_attendance_project/app.py:132 | under the invariant, `query.get(id)` finds a row iff `1 <= id <= |students|`, and that row is at position `id - 1` |
| `Records.RosterIdsDistinct` | super_attendance_project/app.py:229-231 | under the invariant, no two roster entries share an id, so no two read the same `status_<id>` field |
| `Records.RosterPositionsIncrease` | super_attendance_project/app.py:229-231 | the roster keeps table order: later entries have larger ids |
| `Text.Strip` | super_attendance_project/app.py:83 | `strip()` leaves no whitespace at either end and returns an already-stripped string unchanged |
| `Text.StripRemovesOnlyOuterSpace` | super_attendance_project/app.py:83 | the input is the stripped string with a run of whitespace before it and a run after it |
| `Text.TrimStartDropsLeadingSpace` | super_attendance_project/app.py:83 | the input is the left-stripped string with a run of whitespace before it |
| `Text.TrimEndDropsTrailingSpace` | super_attendance_project/app.py:83 | the input is the right-stripped string with a run of whitespace after it |
| `Text.TrimStartEdge` | super_attendance_project/app.py:83 | what the left strip keeps does not start with whitespace |
| `Text.TrimEndEdge` | super_attendance_project/app.py:83 | what the right strip keeps does not end with whitespace, and starts where the input starts |
| `Text.Lower` | super_attendance_project/app.py:84 | same length, no capitals left, every other character unchanged, each capital moved to its small letter |
| `Text.NormaliseEmail` | super_attendance_project/app.py:84 | the result is stripped and has no capitals; an already normalised email is left unchanged (idempotence) |
| `Text.NormaliseEmailIsLoweredStrip` | super_attendance_project/app.py:84 | the normalised email is the text between the whitespace at the two ends of the input, lowered character by character |
| `Text.NormaliseEmailIgnoresOuterSpace` | super_attendance_project/app.py:84 | emails that differ only in surrounding whitespace normalise to the same email, so they find the same account at lines 90 and 115 |
| `Text.NormaliseEmailOfLower` | super_attendance_project/app.py:84 | emails that differ only in the case of their letters normalise to the same email |
| `Text.TrimStartSkipsSpace` | super_attendance_project/app.py:83 | whitespace put in front of a string does not change its left strip |
| `Text.TrimEndSkipsSpace` | super_attendance_project/app.py:83 | whitespace put after a string does not change its right strip |
| `Text.StripIgnoresTrailingSpace` | super_attendance_project/app.py:83 | whitespace put after a string does not change its strip |
| `Text.TrimStartLower` | super_attendance_project/app.py:84 | lowering and left-stripping commute |
| `Text.TrimEndLower` | super_attendance_project/app.py:84 | lowering and right-stripping commute |
| `Text.NatToString` | super_attendance_project/app.py:248 | `str(id)` is one or more decimal digits with no leading zero, and those digits denote `id` (`DecimalValue(r) == n`) |
| `Text.NatToStringInjective` | super_attendance_project/app.py:248 | different ids print differently |
| `Summary.Subjects` | super_attendance_project/app.py:140-143 | the dict's keys in insertion order contain no subject twice |
| `Summary.SubjectListed` | super_attendance_project/app.py:141-143 | the subject of every row becomes a key |
| `Summary.ListedSubjectOccurs` | super_attendance_project/app.py:141-143 | every key is the subject of some row |
| `Summary.PrefixStep` | super_attendance_project/app.py:140-148 | one loop step adds a new key only for an unseen subject, and changes only that subject's counts: total +1, and present +1 or absent +1 by status |
| `Summary.UnseenSubjectUncounted` | super_attendance_project/app.py:142-143 | a subject not yet seen has counts 0/0/0, so the fresh dict entry is right |
| `Summary.CountBySubject` | super_attendance_project/app.py:139-148 | the first loop yields exactly the subjects in first-seen order, each with its total, present and absent counts over all rows |
| `Summary.SummaryLines` | super_attendance_project/app.py:150-159 | the second loop yields one line per key, in key order, equal to that subject's independently computed entry |
| `Summary.SummaryOf` | super_attendance_project/app.py:150-159 | one line per dict key, in key order, each with total == present + absent |
| `Summary.Summarize` | super_attendance_project/app.py:137-159 | both loops together compute `SummaryOf(rows)`, the specification below |
| `Summary.Percent` | super_attendance_project/app.py:152 | 0 when total is 0; otherwise `percent * total == 100 * present`; within [0, 100] when present <= total |
| `Summary.PercentOf` | super_attendance_project/app.py:152 | for a positive total, `percent * total == 100 * present`, and the percentage is non-negative and at most 100 when present <= total |
| `Summary.OccurrencesSplit` | super_attendance_project/app.py:144-148 | every row of a subject counts as present or as absent, never both: total == present + absent |
| `Summary.OccurringSubjectCounted` | super_attendance_project/app.py:152 | a subject that has a row has a positive total, so the zero-total branch never fires on a summary line |
| `Summary.EntryBalanced` | super_attendance_project/app.py:144-158 | a subject's line has total == present + absent, total > 0, and percent * total == 100 * present within [0, 100] |
| `Summary.SummaryLinesBalanced` | super_attendance_project/app.py:150-159 | every summary line is balanced in that sense |
| `Summary.SummaryNamesSubjectsOnce` | super_attendance_project/app.py:151 | no subject has two summary lines |
| `Summary.RowSubjectSummarised` | super_attendance_project/app.py:140-159 | the subject of every row has a summary line |
| `Summary.SummarisedSubjectOccurs` | super_attendance_project/app.py:140-159 | every summary line is about a subject some row carries |
| `Summary.MultiplicityOfDistinct` | super_attendance_project/app.py:151 | in a list of distinct subjects, each subject occurs once or not at all |
| `Summary.SumOccurrencesAppend` | super_attendance_project/app.py:140-144 | one more row raises the summed counts by the number of times its subject is listed |
| `Summary.SumOccurrencesCovers` | super_attendance_project/app.py:140-144 | summing the per-subject totals over distinct subjects that cover all rows gives the number of rows |
| `Summary.SumOccurrencesOfNothing` | super_attendance_project/app.py:140-144 | with no rows, every summed count is 0 |
| `Summary.SumTotalsPrefix` | super_attendance_project/app.py:150-159 | the totals of the first k lines add up to the counts of the first k subjects |
| `Summary.SummaryCoversAllRows` | super_attendance_project/app.py:138-159 | the totals of all summary lines add up to the student's number of rows: no row lost, none counted twice |
| `Summary.RecordedRowCounts` | super_attendance_project/app.py:144-148 | one more row of a subject adds 1 to its total; it adds 1 to present when the status is exactly 'present', and 1 to absent for any other status |
| `Summary.EmptySummary` | super_attendance_project/app.py:138-159 | a student without rows gets an empty summary |
| `Summary.MathExample` | super_attendance_project/app.py:140-159 | four 'Math' rows, three present, give the single line (Math, 4, 3, 1, 75%) |
| `Recording.LoadRoster` | super_attendance_project/app.py:218-233 | no query string shows no roster; the roster is loaded iff all six fields are non-empty, and it then holds exactly the students of the requested section |
| `Recording.LectureFromForm` | super_attendance_project/app.py:236-241 | the lecture is read iff all six descriptor fields are present (blank values accepted), and carries them verbatim; a missing one is a 400 |
| `Recording.StatusKeyRoundTrip` | super_attendance_project/app.py:248 | the `status_<id>` field name parses back to the student's id |
| `Recording.StatusKeyInjective` | super_attendance_project/app.py:248 | different students read different `status_<id>` fields |
| `Recording.StatusForReadsOwnField` | super_attendance_project/app.py:248 | a student's status is the submitted value verbatim, or 'absent' when none is submitted; a value submitted for another student never changes it |
| `Recording.NewRowsDescribed` | super_attendance_project/app.py:247-259 | `NewRows` (built from `RowFor`) has one row per roster student, in roster order: ids run on from the first free one, and each row carries the submitted lecture, its student's id, the teacher's id and that student's own status |
| `Recording.NewRowsStep` | super_attendance_project/app.py:247-260 | one more roster student adds exactly that student's row at the end |
| `Recording.NewRowsForStudent` | super_attendance_project/app.py:247-260 | each roster student gets exactly one new row, carrying the lecture's six fields, its own status, its id and the teacher's id |
| `Recording.NewRowsForOthers` | super_attendance_project/app.py:243-260 | a student outside the roster gets no new row |
| `Recording.RecordingAddsOneRow` | super_attendance_project/app.py:243-261 | after a submission, a roster student's rows are their old rows plus exactly one, so a resubmitted lecture is stored twice |
| `Recording.RecordingLeavesOthers` | super_attendance_project/app.py:243-261 | after a submission, the rows of a student outside the roster are unchanged |
| `Recording.ThreeStudentsTwoPresent` | super_attendance_project/app.py:247-260 | three roster students, two marked present, give three rows: present, absent, present |
| `Sessions.WithUser` | super_attendance_project/app.py:64-67 | `user_type` is the role; `user_id` is the id for a student or teacher and None otherwise; `user_name` is the user's name or 'Admin'; every other key is kept, and no other key is added |
| `Sessions.SessionUserId` | super_attendance_project/app.py:128-132 | the gate refuses exactly when the role is not in the session; with the role it yields `user_id`, or the missing-key error when that key is absent |
| `Sessions.LoginOpensGate` | super_attendance_project/app.py:64-67 | after `login_user` as a student or teacher, that role's gate yields the user's id and the other role's gate refuses |
| `Sessions.LogoutClosesGate` | super_attendance_project/app.py:69-70 | after `session.clear()` every gate refuses |
| `App.StudentFromForm` | super_attendance_project/app.py:83-101 | the new student row has the next id, the given hash, the normalised email, and the stripped name, semester, stream and division |
| `App.TeacherFromForm` | super_attendance_project/app.py:168-182 | the new teacher row has the next id, the given hash, the normalised email, and the stripped name and department |
| `App.AttendanceApp.constructor` | super_attendance_project/app.py:12 | an empty store and an empty session, with the invariant established |
| `App.AttendanceApp.LoginUser` | super_attendance_project/app.py:64-67 | the three session keys are set, every other key is kept, and the store invariant is kept |
| `App.AttendanceApp.LogoutUser` | super_attendance_project/app.py:275-279 | the session becomes empty, and the store invariant is kept |
| `App.AttendanceApp.RegisterStudent` | super_attendance_project/app.py:80-105 | a missing field is a 400; a taken email is refused with nothing changed; otherwise exactly one row (stripped fields, normalised email, hashed password, next id) is appended and the invariant is kept |
| `App.AttendanceApp.InsertStudent` | super_attendance_project/app.py:102-103 | the row is appended at the end and the invariant is kept |
| `App.AttendanceApp.RegisterTeacher` | super_attendance_project/app.py:165-186 | as `RegisterStudent`, for teachers |
| `App.AttendanceApp.InsertTeacher` | super_attendance_project/app.py:183-184 | the row is appended at the end and the invariant is kept |
| `App.AttendanceApp.StudentLogin` | super_attendance_project/app.py:109-122 | the session changes only when a student has the normalised email and the password checks; an unknown email and a wrong password give the same answer |
| `App.AttendanceApp.TeacherLogin` | super_attendance_project/app.py:190-203 | as `StudentLogin`, for teachers |
| `App.AttendanceApp.StudentDashboard` | super_attendance_project/app.py:126-161 | the role gate and "student not found" are the only refusals; on success the view shows the signed-in student and the summary of exactly their rows |
| `App.AttendanceApp.CurrentTeacher` | super_attendance_project/app.py:209-216 | it succeeds exactly when the session has the teacher role and its `user_id` is the id of an existing teacher; otherwise it refuses with the gate's error or "teacher not found"; on success the teacher's id is the session's `user_id` |
| `App.AttendanceApp.TeacherDashboardGet` | super_attendance_project/app.py:207-233 | it succeeds exactly when a signed-in teacher exists (as for `CurrentTeacher`); past the role gate, a missing teacher row is "teacher not found"; the view then shows the teacher whose id is the session's `user_id`, and the roster the query string selects |
| `App.AttendanceApp.TeacherDashboardPost` | super_attendance_project/app.py:235-263 | it succeeds exactly when a signed-in teacher exists and all six descriptor fields are present, even when they are blank and even when the roster is empty; past the role gate, a missing teacher row is "teacher not found"; a signed-in teacher's form missing a field is a 400; a refusal changes nothing; on success the store gains one row per roster student of the submitted section, in roster order, and the count is returned |
| `App.AttendanceApp.InsertRow` | super_attendance_project/app.py:260-261 | the row is appended at the end and the invariant is kept |
| `App.AttendanceApp.RecordLecture` | super_attendance_project/app.py:243-261 | the loop appends exactly `NewRows` of the section's roster, numbered from the next id, and keeps the invariant |
| `App.RegisterThenLogin` | super_attendance_project/app.py:80-122 | registering and then logging in with the same email and password succeeds and signs exactly the new student in |
| `App.DashboardThenLogout` | super_attendance_project/app.py:126-161 | a signed-in student's dashboard shows that student with the summary of their rows; after logout it refuses |

## Left out

- Flask routing, templates, `flash` messages and redirects are left out. Each
  outcome is a `Result` value. The GET forms (`render_template` with no data)
  are not modelled.
- SQLAlchemy and SQLite are modelled as in-memory sequences. Rows get id =
  position + 1, which holds because nothing is ever deleted. Queries return
  rows in table order; SQL does not promise that order without `ORDER BY`.
- Transactions are left out. `db.session.commit()` is taken to succeed, and
  the unique-email constraint of the schema is never reached, because the
  handler checks the email first. Concurrent requests are out of scope.
- `generate_password_hash` and `check_password_hash` are two function
  parameters. The model assumes only that a hash checks against its own
  password, and it does not model the hash format.
- Float division in the percentage is modelled as exact real arithmetic.
  Rounding of the Python float is not modelled.
- `Text.Lower` covers ASCII capitals only. Python's `str.lower()` also maps
  non-ASCII capitals.
- The admin constants (`ADMIN_USERNAME`, `ADMIN_PASSWORD`),
  `create_admin_if_needed`, `init_db`, `index` and the `SECRET_KEY` / cookie
  signing of the session are not modelled. There is no admin login route.
  `login_user`'s non-student, non-teacher branch is still modelled in
  `Sessions.WithUser`.
- Every `flash()` call writes its message into the session under `_flashes`. That includes the one after `logout_user()` in the logout route. The session model leaves flashed messages out. So "the session is unchanged" after a refused login, and "the session is empty" after logout, hold only for the keys the model tracks.
- Column lengths (`db.String(120)` and so on) are not enforced. SQLite does
  not enforce them either.
- Registration strips `sem`, `stream` and `division`. The teacher dashboard
  uses the submitted values as they are. The model keeps that difference: a
  roster query with surrounding spaces finds nobody.
- `App.AttendanceApp.TeacherDashboardPost` records a lecture with blank
  descriptor fields, and with an empty roster (zero rows). It does so because
  the handler has no such check: only the GET branch requires non-empty
  fields.

## Findings

Nothing in the source was found to contradict its evident intent. One
behaviour worth knowing follows from the code: the attendance POST accepts
blank descriptor fields and an empty roster. `TeacherDashboardPost` states
this in its `Ok` iff clause, which depends only on the signed-in teacher and
on the six fields being present.
