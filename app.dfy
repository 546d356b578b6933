/** The application with the web framework taken away: one object holding the
    store (the three tables) and the current client's session, with one method
    per request handler. Form and query-string data arrive as maps. */
module App {
  import opened Base
  import opened Text
  import opened Records
  import opened Summary
  import opened Recording
  import opened Sessions

  /** The one property the model asks of the password-hashing pair: a hash
      made from a password (with any salt) checks against that password. */
  ghost predicate HashSound(hash: (string, string) -> string, check: (string, string) -> bool) {
    forall salt, password :: check(hash(salt, password), password)
  }

  /** The fields `request.form[...]` reads in the registration and login
      handlers; a missing one makes Flask answer 400 Bad Request. */
  predicate StudentFormComplete(form: map<string, string>) {
    "name" in form && "email" in form && "password" in form && "sem" in form && "stream" in form && "division" in form
  }

  predicate TeacherFormComplete(form: map<string, string>) {
    "name" in form && "email" in form && "password" in form && "department" in form
  }

  predicate LoginFormComplete(form: map<string, string>) {
    "email" in form && "password" in form
  }

  /** The student row a complete registration form describes: name and
      section fields stripped, email normalised, the given password hash. */
  function StudentFromForm(id: nat, form: map<string, string>, passwordHash: string): (s: Student)
    requires StudentFormComplete(form)
    ensures s.id == id && s.passwordHash == passwordHash
    ensures s.email == NormaliseEmail(form["email"]) && IsNormalisedEmail(s.email)
    ensures s.name == Strip(form["name"])
    ensures s.sem == Strip(form["sem"]) && s.stream == Strip(form["stream"]) && s.division == Strip(form["division"])
  {
    Student(id, Strip(form["name"]), NormaliseEmail(form["email"]), passwordHash,
            Strip(form["sem"]), Strip(form["stream"]), Strip(form["division"]))
  }

  /** The teacher row a complete registration form describes. */
  function TeacherFromForm(id: nat, form: map<string, string>, passwordHash: string): (t: Teacher)
    requires TeacherFormComplete(form)
    ensures t.id == id && t.passwordHash == passwordHash
    ensures t.email == NormaliseEmail(form["email"]) && IsNormalisedEmail(t.email)
    ensures t.name == Strip(form["name"]) && t.department == Strip(form["department"])
  {
    Teacher(id, Strip(form["name"]), NormaliseEmail(form["email"]), passwordHash, Strip(form["department"]))
  }

  /** What the student dashboard renders. */
  datatype StudentView = StudentView(student: Student, summary: seq<SubjectSummary>)

  /** What the teacher dashboard renders after a GET. */
  datatype TeacherView = TeacherView(teacher: Teacher, students: RosterView)

  class AttendanceApp {
    /** `generate_password_hash`, with its random salt made an argument. */
    const hash: (string, string) -> string
    /** `check_password_hash` */
    const check: (string, string) -> bool

    var students: seq<Student>
    var teachers: seq<Teacher>
    var attendance: seq<Attendance>
    var session: Session

    ghost predicate Valid()
      reads this
    {
      HashSound(hash, check) && StoreInvariant(students, teachers, attendance)
    }

    /** An empty store and an empty session. */
    constructor (hash: (string, string) -> string, check: (string, string) -> bool)
      requires HashSound(hash, check)
      ensures Valid()
      ensures this.hash == hash && this.check == check
      ensures students == [] && teachers == [] && attendance == [] && session == map[]
    {
      this.hash := hash;
      this.check := check;
      students, teachers, attendance := [], [], [];
      session := map[];
    }

    // -------------------------------------------------------------------------
    // Session

    /** `login_user(user_type, user_obj)` */
    method LoginUser(userType: string, user: Option<Account>)
      requires Valid()
      requires (userType == STUDENT || userType == TEACHER) ==> user.Some?
      modifies this`session
      ensures Valid()
      ensures session == WithUser(old(session), userType, user)
    {
      session := session["user_type" := Str(userType)];
      session := session["user_id" := if userType == STUDENT || userType == TEACHER then Num(user.value.id) else Null];
      session := session["user_name" := if user.Some? then Str(user.value.name) else Str(ADMIN_NAME)];
    }

    /** `logout_user()`, the whole of the /logout route: the session is emptied. */
    method LogoutUser()
      requires Valid()
      modifies this`session
      ensures Valid()
      ensures session == map[]
    {
      session := map[];
    }

    // -------------------------------------------------------------------------
    // Registration and login

    /** POST /student/register. The email is stored as `strip().lower()`, the
        name and section fields stripped, the password hashed. An email already
        in the student table is refused and nothing changes. */
    method RegisterStudent(form: map<string, string>, salt: string) returns (r: Result<nat>)
      requires Valid()
      modifies this`students
      ensures Valid()
      ensures !StudentFormComplete(form) ==> r == Err(BadRequest) && students == old(students)
      ensures StudentFormComplete(form) && StudentByEmail(old(students), NormaliseEmail(form["email"])).Some? ==>
                r == Err(DuplicateEmail) && students == old(students)
      ensures StudentFormComplete(form) && StudentByEmail(old(students), NormaliseEmail(form["email"])).None? ==>
                && r == Ok(|old(students)| + 1)
                && students == old(students) + [StudentFromForm(|old(students)| + 1, form, hash(salt, form["password"]))]
    {
      if !StudentFormComplete(form) {
        return Err(BadRequest);
      }
      var added := StudentFromForm(|students| + 1, form, hash(salt, form["password"]));
      if StudentByEmail(students, added.email).Some? {
        return Err(DuplicateEmail);
      }
      InsertStudent(added);
      r := Ok(added.id);
    }

    /** `db.session.add(...)` and `commit()` of a new student row: the row
        goes at the end of the table, and the store invariant is kept as long
        as the row carries the next id and a normalised, unused email. */
    method InsertStudent(s: Student)
      requires Valid()
      requires s.id == |students| + 1 && IsNormalisedEmail(s.email)
      requires StudentByEmail(students, s.email).None?
      modifies this`students
      ensures Valid() && students == old(students) + [s]
    {
      AddStudentKeepsInvariant(students, teachers, attendance, s);
      students := students + [s];
    }

    /** POST /teacher/register, as for students with a department instead of a section. */
    method RegisterTeacher(form: map<string, string>, salt: string) returns (r: Result<nat>)
      requires Valid()
      modifies this`teachers
      ensures Valid()
      ensures !TeacherFormComplete(form) ==> r == Err(BadRequest) && teachers == old(teachers)
      ensures TeacherFormComplete(form) && TeacherByEmail(old(teachers), NormaliseEmail(form["email"])).Some? ==>
                r == Err(DuplicateEmail) && teachers == old(teachers)
      ensures TeacherFormComplete(form) && TeacherByEmail(old(teachers), NormaliseEmail(form["email"])).None? ==>
                && r == Ok(|old(teachers)| + 1)
                && teachers == old(teachers) + [TeacherFromForm(|old(teachers)| + 1, form, hash(salt, form["password"]))]
    {
      if !TeacherFormComplete(form) {
        return Err(BadRequest);
      }
      var added := TeacherFromForm(|teachers| + 1, form, hash(salt, form["password"]));
      if TeacherByEmail(teachers, added.email).Some? {
        return Err(DuplicateEmail);
      }
      InsertTeacher(added);
      r := Ok(added.id);
    }

    /** `db.session.add(...)` and `commit()` of a new teacher row: the row
        goes at the end of the table, and the store invariant is kept as long
        as the row carries the next id and a normalised, unused email. */
    method InsertTeacher(t: Teacher)
      requires Valid()
      requires t.id == |teachers| + 1 && IsNormalisedEmail(t.email)
      requires TeacherByEmail(teachers, t.email).None?
      modifies this`teachers
      ensures Valid() && teachers == old(teachers) + [t]
    {
      AddTeacherKeepsInvariant(students, teachers, attendance, t);
      teachers := teachers + [t];
    }

    /** POST /student/login. The session is set only when a student has the
        normalised email and the password checks against the stored hash; an
        unknown email and a wrong password give the same answer. */
    method StudentLogin(form: map<string, string>) returns (r: Result<nat>)
      requires Valid()
      modifies this`session
      ensures Valid()
      ensures !LoginFormComplete(form) ==> r == Err(BadRequest) && session == old(session)
      ensures LoginFormComplete(form) ==>
                var found := StudentByEmail(students, NormaliseEmail(form["email"]));
                if found.Some? && check(found.value.passwordHash, form["password"]) then
                  && r == Ok(found.value.id)
                  && session == WithUser(old(session), STUDENT, Some(Account(found.value.id, found.value.name)))
                else
                  r == Err(InvalidCredentials) && session == old(session)
    {
      if !LoginFormComplete(form) {
        return Err(BadRequest);
      }
      var email := NormaliseEmail(form["email"]);
      var password := form["password"];
      var student := StudentByEmail(students, email);
      if student.None? || !check(student.value.passwordHash, password) {
        return Err(InvalidCredentials);
      }
      LoginUser(STUDENT, Some(Account(student.value.id, student.value.name)));
      r := Ok(student.value.id);
    }

    /** POST /teacher/login, as for students. */
    method TeacherLogin(form: map<string, string>) returns (r: Result<nat>)
      requires Valid()
      modifies this`session
      ensures Valid()
      ensures !LoginFormComplete(form) ==> r == Err(BadRequest) && session == old(session)
      ensures LoginFormComplete(form) ==>
                var found := TeacherByEmail(teachers, NormaliseEmail(form["email"]));
                if found.Some? && check(found.value.passwordHash, form["password"]) then
                  && r == Ok(found.value.id)
                  && session == WithUser(old(session), TEACHER, Some(Account(found.value.id, found.value.name)))
                else
                  r == Err(InvalidCredentials) && session == old(session)
    {
      if !LoginFormComplete(form) {
        return Err(BadRequest);
      }
      var email := NormaliseEmail(form["email"]);
      var password := form["password"];
      var teacher := TeacherByEmail(teachers, email);
      if teacher.None? || !check(teacher.value.passwordHash, password) {
        return Err(InvalidCredentials);
      }
      LoginUser(TEACHER, Some(Account(teacher.value.id, teacher.value.name)));
      r := Ok(teacher.value.id);
    }

    // -------------------------------------------------------------------------
    // Dashboards

    /** GET /student/dashboard: the signed-in student's per-subject summary,
        or the reason the caller is sent back to the login page. */
    method StudentDashboard() returns (r: Result<StudentView>)
      ensures SessionUserId(session, STUDENT).Err? ==> r == Err(SessionUserId(session, STUDENT).failure)
      ensures r.Err? ==> r == Err(UserNotFound) || SessionUserId(session, STUDENT) == Err(r.failure)
      ensures r == Err(UserNotFound) <==>
                SessionUserId(session, STUDENT).Ok?
                && !(session["user_id"].Num? && StudentById(students, session["user_id"].n).Some?)
      ensures r.Ok? ==>
                && r.value.student in students
                && HasRole(session, STUDENT) && "user_id" in session && session["user_id"] == Num(r.value.student.id)
                && r.value.summary == SummaryOf(RowsOfStudent(attendance, r.value.student.id))
    {
      var userId := SessionUserId(session, STUDENT);
      if userId.Err? {
        return Err(userId.failure);
      }
      var student := if userId.value.Num? then StudentById(students, userId.value.n) else None;
      if student.None? {
        return Err(UserNotFound);
      }
      var rows := RowsOfStudent(attendance, student.value.id);
      var summary := Summarize(rows);
      r := Ok(StudentView(student.value, summary));
    }

    /** The session belongs to a teacher whose row exists: the role is set and
        `user_id` is the id of a row of the teacher table. */
    predicate SignedInTeacher()
      reads this
    {
      SessionUserId(session, TEACHER).Ok? && session["user_id"].Num? && TeacherById(teachers, session["user_id"].n).Some?
    }

    /** The gate of the teacher dashboard: the signed-in teacher's row. */
    method CurrentTeacher() returns (r: Result<Teacher>)
      ensures r.Ok? <==> SignedInTeacher()
      ensures SessionUserId(session, TEACHER).Err? ==> r == Err(SessionUserId(session, TEACHER).failure)
      ensures r.Err? ==> r == Err(UserNotFound) || SessionUserId(session, TEACHER) == Err(r.failure)
      ensures r == Err(UserNotFound) <==>
                SessionUserId(session, TEACHER).Ok?
                && !(session["user_id"].Num? && TeacherById(teachers, session["user_id"].n).Some?)
      ensures r.Ok? ==>
                && r.value in teachers
                && HasRole(session, TEACHER) && "user_id" in session && session["user_id"] == Num(r.value.id)
    {
      var userId := SessionUserId(session, TEACHER);
      if userId.Err? {
        return Err(userId.failure);
      }
      var teacher := if userId.value.Num? then TeacherById(teachers, userId.value.n) else None;
      if teacher.None? {
        return Err(UserNotFound);
      }
      r := Ok(teacher.value);
    }

    /** GET /teacher/dashboard: past the gate, the roster view the query
        string asks for. */
    method TeacherDashboardGet(args: map<string, string>) returns (r: Result<TeacherView>)
      ensures SessionUserId(session, TEACHER).Err? ==> r == Err(SessionUserId(session, TEACHER).failure)
      ensures r.Ok? <==> SignedInTeacher()
      ensures SessionUserId(session, TEACHER).Ok? && !SignedInTeacher() ==> r == Err(UserNotFound)
      ensures r.Ok? ==> r.value.teacher in teachers && HasRole(session, TEACHER)
                        && session["user_id"] == Num(r.value.teacher.id)
                        && r.value.students == LoadRoster(args, students)
    {
      var teacher := CurrentTeacher();
      if teacher.Err? {
        return Err(teacher.failure);
      }
      r := Ok(TeacherView(teacher.value, LoadRoster(args, students)));
    }

    /** POST /teacher/dashboard: past the gate, and with the six descriptor
        fields present (blank values are accepted, an empty roster is
        accepted), one row per roster student is appended. Returns the number
        of rows written. */
    method TeacherDashboardPost(form: map<string, string>) returns (r: Result<nat>)
      requires Valid()
      modifies this`attendance
      ensures Valid()
      ensures r.Err? ==> attendance == old(attendance)
      ensures r.Ok? ==>
                exists t :: t in teachers && HasRole(session, TEACHER) && "user_id" in session && session["user_id"] == Num(t.id)
                  && LectureFromForm(form).Ok?
                  && var lecture := LectureFromForm(form).value;
                     var roster := Roster(students, lecture.sem, lecture.stream, lecture.division);
                     && r.value == |roster|
                     && attendance == old(attendance) + NewRows(|old(attendance)| + 1, roster, lecture, t.id, form)
      ensures SessionUserId(session, TEACHER).Err? ==> r == Err(SessionUserId(session, TEACHER).failure)
      ensures r.Ok? <==> SignedInTeacher() && LectureFromForm(form).Ok?
      ensures SessionUserId(session, TEACHER).Ok? && !SignedInTeacher() ==> r == Err(UserNotFound)
      ensures SignedInTeacher() && LectureFromForm(form).Err? ==> r == Err(BadRequest)
    {
      var teacher := CurrentTeacher();
      if teacher.Err? {
        return Err(teacher.failure);
      }
      var lecture := LectureFromForm(form);
      if lecture.Err? {
        return Err(lecture.failure);
      }
      var t := teacher.value;
      ghost var k :| 0 <= k < |teachers| && teachers[k] == t;
      var written := RecordLecture(t.id, lecture.value, form);
      r := Ok(written);
    }

    /** `db.session.add(...)` of one attendance row: it goes at the end of the
        table, and the store invariant is kept as long as the row carries the
        next id and refers to an existing student and teacher. */
    method InsertRow(a: Attendance)
      requires Valid()
      requires a.id == |attendance| + 1
      requires 1 <= a.studentId <= |students| && 1 <= a.teacherId <= |teachers|
      modifies this`attendance
      ensures Valid() && attendance == old(attendance) + [a]
    {
      AddRowKeepsInvariant(students, teachers, attendance, a);
      attendance := attendance + [a];
    }

    /** The loop of the POST branch: select the roster of the lecture's
        section and append one row per roster student, with the status the
        form gives it ('absent' when it gives none). Existing rows are never
        touched, so the same lecture submitted twice is recorded twice. */
    method RecordLecture(teacherId: nat, lecture: Lecture, form: map<string, string>) returns (written: nat)
      requires Valid()
      requires 1 <= teacherId <= |teachers|
      modifies this`attendance
      ensures Valid()
      ensures var roster := Roster(students, lecture.sem, lecture.stream, lecture.division);
              && written == |roster|
              && attendance == old(attendance) + NewRows(|old(attendance)| + 1, roster, lecture, teacherId, form)
    {
      var roster := Roster(students, lecture.sem, lecture.stream, lecture.division);
      ghost var firstId := |attendance| + 1;
      var i := 0;
      while i < |roster|
        invariant 0 <= i <= |roster|
        invariant attendance == old(attendance) + NewRows(firstId, roster[..i], lecture, teacherId, form)
        invariant Valid()
      {
        var s := roster[i];
        var status := StatusFor(form, s.id);
        var row := Attendance(|attendance| + 1, lecture.date, lecture.subject, lecture.lectureNo,
                              lecture.sem, lecture.stream, lecture.division, status, s.id, teacherId);
        assert 1 <= s.id <= |students| by {
          var j :| 0 <= j < |students| && students[j] == s;
        }
        assert attendance + [row] == old(attendance) + NewRows(firstId, roster[..i + 1], lecture, teacherId, form) by {
          assert row == RowFor(firstId + i, s, lecture, teacherId, form);
          NewRowsStep(firstId, roster, lecture, teacherId, form, i);
        }
        InsertRow(row);
        i := i + 1;
      }
      assert roster[..i] == roster;
      written := |roster|;
    }
  }

  /** Registering a student and then logging in with the same email and
      password succeeds and signs exactly that student in. */
  method RegisterThenLogin(app: AttendanceApp, form: map<string, string>, salt: string)
    returns (registered: Result<nat>, loggedIn: Result<nat>)
    requires app.Valid()
    requires StudentFormComplete(form)
    requires StudentByEmail(app.students, NormaliseEmail(form["email"])).None?
    modifies app
    ensures app.Valid()
    ensures |app.students| == |old(app.students)| + 1
    ensures registered == Ok(|app.students|) && loggedIn == registered
    ensures var s := app.students[|app.students| - 1];
            && s.email == NormaliseEmail(form["email"])
            && app.session == WithUser(old(app.session), STUDENT, Some(Account(s.id, s.name)))
  {
    registered := app.RegisterStudent(form, salt);
    var s := StudentFromForm(|old(app.students)| + 1, form, app.hash(salt, form["password"]));
    assert StudentByEmail(app.students, NormaliseEmail(form["email"])) == Some(s) by {
      StudentFoundAfterRegistration(old(app.students), s);
    }
    assert app.check(s.passwordHash, form["password"]);

    loggedIn := app.StudentLogin(form);
  }

  /** A signed-in student's dashboard shows that student and the summary of
      exactly their rows; after logout the same request is refused. */
  method DashboardThenLogout(app: AttendanceApp, s: Student, previous: Session)
    returns (view: Result<StudentView>, again: Result<StudentView>)
    requires app.Valid()
    requires s in app.students
    requires app.session == WithUser(previous, STUDENT, Some(Account(s.id, s.name)))
    modifies app
    ensures view == Ok(StudentView(s, SummaryOf(RowsOfStudent(app.attendance, s.id))))
    ensures again == Err(NotLoggedIn) && app.session == map[]
  {
    assert StudentById(app.students, s.id) == Some(s) by {
      var k :| 0 <= k < |app.students| && app.students[k] == s;
      assert app.students[k].id == k + 1;
      StudentByIdIsPosition(app.students, app.teachers, app.attendance, s.id);
    }
    view := app.StudentDashboard();
    assert view.value.student == s by {
      var j :| 0 <= j < |app.students| && app.students[j] == view.value.student;
      assert app.students[j].id == j + 1;
    }
    app.LogoutUser();
    again := app.StudentDashboard();
  }
}
