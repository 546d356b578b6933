/** The three tables of the store (Student, Teacher, Attendance), the queries
    the handlers run against them, and the invariant the handlers maintain. */
module Records {
  import opened Base
  import opened Text

  /** A row of the `student` table. `id` is the primary key the store assigns. */
  datatype Student = Student(
    id: nat, name: string, email: string, passwordHash: string,
    sem: string, stream: string, division: string)

  /** A row of the `teacher` table. */
  datatype Teacher = Teacher(
    id: nat, name: string, email: string, passwordHash: string, department: string)

  /** A row of the `attendance` table: one student's status for one lecture.
      `status` holds whatever the form submitted; nothing restricts it to
      'present' and 'absent'. */
  datatype Attendance = Attendance(
    id: nat, date: string, subject: string, lectureNo: string,
    sem: string, stream: string, division: string, status: string,
    studentId: nat, teacherId: nat)

  /** `Student.query.filter_by(email=email).first()` */
  function StudentByEmail(students: seq<Student>, email: string): (r: Option<Student>)
    ensures r.Some? ==> r.value in students && r.value.email == email
    ensures r.None? <==> forall i :: 0 <= i < |students| ==> students[i].email != email
  {
    match FirstWhere(students, (s: Student) => s.email == email)
    case Some(i) => Some(students[i])
    case None => None
  }

  /** A student registered under an email no student had is the one the
      login query then finds. */
  lemma StudentFoundAfterRegistration(students: seq<Student>, s: Student)
    requires StudentByEmail(students, s.email).None?
    ensures StudentByEmail(students + [s], s.email) == Some(s)
  {
    FirstWhereAppend(students, s, (t: Student) => t.email == s.email);
  }

  /** `Teacher.query.filter_by(email=email).first()` */
  function TeacherByEmail(teachers: seq<Teacher>, email: string): (r: Option<Teacher>)
    ensures r.Some? ==> r.value in teachers && r.value.email == email
    ensures r.None? <==> forall i :: 0 <= i < |teachers| ==> teachers[i].email != email
  {
    match FirstWhere(teachers, (t: Teacher) => t.email == email)
    case Some(i) => Some(teachers[i])
    case None => None
  }

  /** A teacher registered under an email no teacher had is the one the
      login query then finds. */
  lemma TeacherFoundAfterRegistration(teachers: seq<Teacher>, t: Teacher)
    requires TeacherByEmail(teachers, t.email).None?
    ensures TeacherByEmail(teachers + [t], t.email) == Some(t)
  {
    FirstWhereAppend(teachers, t, (u: Teacher) => u.email == t.email);
  }

  /** `Student.query.get(id)`: the row whose primary key is `id`, if any. */
  function StudentById(students: seq<Student>, id: int): (r: Option<Student>)
    ensures r.Some? ==> r.value in students && r.value.id == id
    ensures r.None? <==> forall i :: 0 <= i < |students| ==> students[i].id != id
  {
    match FirstWhere(students, (s: Student) => s.id == id)
    case Some(i) => Some(students[i])
    case None => None
  }

  /** `Teacher.query.get(id)` */
  function TeacherById(teachers: seq<Teacher>, id: int): (r: Option<Teacher>)
    ensures r.Some? ==> r.value in teachers && r.value.id == id
    ensures r.None? <==> forall i :: 0 <= i < |teachers| ==> teachers[i].id != id
  {
    match FirstWhere(teachers, (t: Teacher) => t.id == id)
    case Some(i) => Some(teachers[i])
    case None => None
  }

  /** The section key (sem, stream, division) of `s` is exactly the given one. */
  predicate InSection(s: Student, sem: string, stream: string, division: string) {
    s.sem == sem && s.stream == stream && s.division == division
  }

  /** `Student.query.filter_by(sem=sem, stream=stream, division=division).all()`:
      the roster of a section, in table order. */
  function Roster(students: seq<Student>, sem: string, stream: string, division: string): (r: seq<Student>)
    ensures forall i :: 0 <= i < |r| ==> r[i] in students && InSection(r[i], sem, stream, division)
    ensures forall i :: 0 <= i < |students| && InSection(students[i], sem, stream, division) ==> students[i] in r
  {
    Filter(students, (s: Student) => InSection(s, sem, stream, division))
  }

  /** `Attendance.query.filter_by(student_id=id).all()`: one student's rows, in table order. */
  function RowsOfStudent(attendance: seq<Attendance>, id: nat): (r: seq<Attendance>)
    ensures forall i :: 0 <= i < |r| ==> r[i] in attendance && r[i].studentId == id
    ensures forall i :: 0 <= i < |attendance| && attendance[i].studentId == id ==> attendance[i] in r
  {
    Filter(attendance, (a: Attendance) => a.studentId == id)
  }

  /** What the handlers keep true of the store: primary keys are 1, 2, 3, ... in
      insertion order (nothing is ever deleted), stored emails are normalised
      and unique within each role's table, and every attendance row refers to
      an existing student and an existing teacher. */
  ghost predicate StoreInvariant(students: seq<Student>, teachers: seq<Teacher>, attendance: seq<Attendance>) {
    && (forall i :: 0 <= i < |students| ==> students[i].id == i + 1 && IsNormalisedEmail(students[i].email))
    && (forall i, j :: 0 <= i < j < |students| ==> students[i].email != students[j].email)
    && (forall i :: 0 <= i < |teachers| ==> teachers[i].id == i + 1 && IsNormalisedEmail(teachers[i].email))
    && (forall i, j :: 0 <= i < j < |teachers| ==> teachers[i].email != teachers[j].email)
    && (forall i :: 0 <= i < |attendance| ==>
          && attendance[i].id == i + 1
          && 1 <= attendance[i].studentId <= |students|
          && 1 <= attendance[i].teacherId <= |teachers|)
  }

  /** Adding a student with the next id and a normalised email that no
      student has keeps the invariant. */
  lemma AddStudentKeepsInvariant(students: seq<Student>, teachers: seq<Teacher>, attendance: seq<Attendance>, s: Student)
    requires StoreInvariant(students, teachers, attendance)
    requires s.id == |students| + 1 && IsNormalisedEmail(s.email)
    requires StudentByEmail(students, s.email).None?
    ensures StoreInvariant(students + [s], teachers, attendance)
  {
    var after := students + [s];
    assert forall i :: 0 <= i < |students| ==> after[i] == students[i];
  }

  /** Adding a teacher with the next id and a normalised email that no
      teacher has keeps the invariant. */
  lemma AddTeacherKeepsInvariant(students: seq<Student>, teachers: seq<Teacher>, attendance: seq<Attendance>, t: Teacher)
    requires StoreInvariant(students, teachers, attendance)
    requires t.id == |teachers| + 1 && IsNormalisedEmail(t.email)
    requires TeacherByEmail(teachers, t.email).None?
    ensures StoreInvariant(students, teachers + [t], attendance)
  {
    var after := teachers + [t];
    assert forall i :: 0 <= i < |teachers| ==> after[i] == teachers[i];
  }

  /** Adding an attendance row with the next id that refers to an existing
      student and an existing teacher keeps the invariant. */
  lemma AddRowKeepsInvariant(students: seq<Student>, teachers: seq<Teacher>, attendance: seq<Attendance>, a: Attendance)
    requires StoreInvariant(students, teachers, attendance)
    requires a.id == |attendance| + 1
    requires 1 <= a.studentId <= |students| && 1 <= a.teacherId <= |teachers|
    ensures StoreInvariant(students, teachers, attendance + [a])
  {
    var after := attendance + [a];
    assert forall i :: 0 <= i < |attendance| ==> after[i] == attendance[i];
  }

  /** Under the invariant, `query.get(id)` finds the row at position `id - 1`
      exactly when `id` is a key in use. */
  lemma StudentByIdIsPosition(students: seq<Student>, teachers: seq<Teacher>, attendance: seq<Attendance>, id: int)
    requires StoreInvariant(students, teachers, attendance)
    ensures StudentById(students, id).Some? <==> 1 <= id <= |students|
    ensures 1 <= id <= |students| ==> StudentById(students, id) == Some(students[id - 1])
  {
    if 1 <= id <= |students| {
      assert students[id - 1].id == id;
    }
  }

  /** Under the invariant, the students of a roster have pairwise different ids. */
  lemma {:induction false} RosterIdsDistinct(students: seq<Student>, teachers: seq<Teacher>, attendance: seq<Attendance>,
                                             sem: string, stream: string, division: string)
    requires StoreInvariant(students, teachers, attendance)
    ensures var r := Roster(students, sem, stream, division);
            forall i, j :: 0 <= i < j < |r| ==> r[i].id != r[j].id
  {
    var r := Roster(students, sem, stream, division);
    forall i, j | 0 <= i < j < |r| ensures r[i].id != r[j].id {
      RosterPositionsIncrease(students, sem, stream, division, i, j);
    }
  }

  /** Later roster entries come from later rows of the table. */
  lemma {:induction false} RosterPositionsIncrease(students: seq<Student>, sem: string, stream: string, division: string,
                                                   i: nat, j: nat)
    requires (forall k :: 0 <= k < |students| ==> students[k].id == k + 1)
    requires var r := Roster(students, sem, stream, division); i < j < |r|
    ensures var r := Roster(students, sem, stream, division); r[i].id < r[j].id
    decreases |students|
  {
    var p := (s: Student) => InSection(s, sem, stream, division);
    var n := |students|;
    var init := students[..n - 1];
    var r := Roster(students, sem, stream, division);
    var rest := Roster(init, sem, stream, division);
    assert r == Filter(students, p);
    assert rest == Filter(init, p);
    if p(students[n - 1]) {
      assert r == rest + [students[n - 1]];
      if j < |rest| {
        RosterPositionsIncrease(init, sem, stream, division, i, j);
      } else {
        assert r[i] == rest[i] && rest[i] in init;
        var k :| 0 <= k < n - 1 && init[k] == rest[i];
        assert r[j] == students[n - 1];
      }
    } else {
      assert r == rest;
      RosterPositionsIncrease(init, sem, stream, division, i, j);
    }
  }
}
