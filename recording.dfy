/** What the teacher dashboard does with a lecture: the GET guard that decides
    whether a roster is shown, and the rows one POST submission appends. */
module Recording {
  import opened Base
  import opened Text
  import opened Records

  /** The lecture descriptor a teacher submits. */
  datatype Lecture = Lecture(
    date: string, subject: string, lectureNo: string,
    sem: string, stream: string, division: string)

  /** The six descriptor fields, by their form and query-string names. */
  const DESCRIPTOR_FIELDS: seq<string> := ["date", "subject", "lecture_no", "sem", "stream", "division"]

  /** The status stored for a roster student the form says nothing about. */
  const DEFAULT_STATUS: string := "absent"

  // ---------------------------------------------------------------------------
  // GET: loading the roster

  /** What the dashboard shows after a GET: no query at all, a query with a
      blank or missing field ('Please fill all fields to load students.'), or
      the roster of the requested section. */
  datatype RosterView = NoQuery | Incomplete | Loaded(roster: seq<Student>)

  /** `request.args.get(key)` is truthy: present and not the empty string. */
  predicate Filled(args: map<string, string>, key: string) {
    key in args && args[key] != ""
  }

  /** The GET branch: the roster is queried only when all six descriptor
      fields are filled in; an empty query string shows no roster and no message. */
  function LoadRoster(args: map<string, string>, students: seq<Student>): (v: RosterView)
    ensures v.NoQuery? <==> args == map[]
    ensures v.Loaded? <==> forall k :: k in DESCRIPTOR_FIELDS ==> Filled(args, k)
    ensures v.Loaded? ==>
              && Filled(args, "sem") && Filled(args, "stream") && Filled(args, "division")
              && forall s :: s in v.roster <==> s in students && InSection(s, args["sem"], args["stream"], args["division"])
  {
    assert DESCRIPTOR_FIELDS[0] == "date";
    if args == map[] then
      assert !Filled(args, "date");
      NoQuery
    else if Filled(args, "date") && Filled(args, "subject") && Filled(args, "lecture_no")
         && Filled(args, "sem") && Filled(args, "stream") && Filled(args, "division")
    then
      var roster := Roster(students, args["sem"], args["stream"], args["division"]);
      assert forall s :: s in roster ==> s in students && InSection(s, args["sem"], args["stream"], args["division"]);
      Loaded(roster)
    else
      assert DESCRIPTOR_FIELDS[1] == "subject" && DESCRIPTOR_FIELDS[2] == "lecture_no" && DESCRIPTOR_FIELDS[3] == "sem"
             && DESCRIPTOR_FIELDS[4] == "stream" && DESCRIPTOR_FIELDS[5] == "division";
      Incomplete
  }

  // ---------------------------------------------------------------------------
  // POST: recording a lecture

  /** `request.form[key]` for the six descriptor fields: all six must be
      present (otherwise Flask answers 400), but blank values are accepted. */
  function LectureFromForm(form: map<string, string>): (r: Result<Lecture>)
    ensures r.Ok? <==> forall k :: k in DESCRIPTOR_FIELDS ==> k in form
    ensures r.Err? ==> r.failure == BadRequest
    ensures r.Ok? ==> r.value.date == form["date"] && r.value.subject == form["subject"]
                      && r.value.lectureNo == form["lecture_no"] && r.value.sem == form["sem"]
                      && r.value.stream == form["stream"] && r.value.division == form["division"]
  {
    if "date" in form && "subject" in form && "lecture_no" in form
       && "sem" in form && "stream" in form && "division" in form
    then Ok(Lecture(form["date"], form["subject"], form["lecture_no"], form["sem"], form["stream"], form["division"]))
    else Err(BadRequest)
  }

  /** The student id a `status_<id>` field name carries, if it is one. */
  function StatusKeyId(key: string): Option<nat> {
    if |key| > 7 && key[..7] == "status_" && AllDigits(key[7..]) then Some(DecimalValue(key[7..])) else None
  }

  /** The form field that carries one student's status: `f'status_{id}'`. */
  function StatusKey(studentId: nat): string {
    "status_" + NatToString(studentId)
  }

  /** The field name a student's status is read from gives back that
      student's id. */
  lemma StatusKeyRoundTrip(studentId: nat)
    ensures StatusKeyId(StatusKey(studentId)) == Some(studentId)
  {
    assert StatusKey(studentId)[..7] == "status_";
    assert StatusKey(studentId)[7..] == NatToString(studentId);
  }

  /** Different students read different form fields. */
  lemma StatusKeyInjective(a: nat, b: nat)
    requires StatusKey(a) == StatusKey(b)
    ensures a == b
  {
    StatusKeyRoundTrip(a);
    StatusKeyRoundTrip(b);
  }

  /** `request.form.get(f'status_{id}', 'absent')` */
  function StatusFor(form: map<string, string>, studentId: nat): string {
    var key := StatusKey(studentId);
    if key in form then form[key] else DEFAULT_STATUS
  }

  /** The stored status is the submitted value verbatim when there is one, and
      'absent' otherwise; a value submitted for another student never changes it. */
  lemma StatusForReadsOwnField(form: map<string, string>, studentId: nat, otherId: nat, value: string)
    requires otherId != studentId
    ensures StatusKey(studentId) !in form ==> StatusFor(form, studentId) == "absent"
    ensures StatusKey(studentId) in form ==> StatusFor(form, studentId) == form[StatusKey(studentId)]
    ensures StatusFor(form[StatusKey(otherId) := value], studentId) == StatusFor(form, studentId)
  {
    if StatusKey(otherId) == StatusKey(studentId) {
      StatusKeyInjective(otherId, studentId);
    }
  }

  /** The lecture a stored row belongs to. */
  function LectureOf(a: Attendance): Lecture {
    Lecture(a.date, a.subject, a.lectureNo, a.sem, a.stream, a.division)
  }

  /** The row recorded for roster student `s`. */
  function RowFor(id: nat, s: Student, lecture: Lecture, teacherId: nat, form: map<string, string>): Attendance {
    Attendance(id, lecture.date, lecture.subject, lecture.lectureNo,
               lecture.sem, lecture.stream, lecture.division,
               StatusFor(form, s.id), s.id, teacherId)
  }

  /** The rows one submission appends, one per roster student in roster order;
      the store numbers them from `firstId`. */
  function NewRows(firstId: nat, roster: seq<Student>, lecture: Lecture, teacherId: nat,
                   form: map<string, string>): seq<Attendance> {
    seq(|roster|, i requires 0 <= i < |roster| => RowFor(firstId + i, roster[i], lecture, teacherId, form))
  }

  /** One new row per roster student, in roster order and numbered on from
      `firstId`: each belongs to the submitted lecture, points at its student
      and the teacher, and carries that student's own status field. */
  lemma NewRowsDescribed(firstId: nat, roster: seq<Student>, lecture: Lecture, teacherId: nat,
                         form: map<string, string>)
    ensures var r := NewRows(firstId, roster, lecture, teacherId, form);
            && |r| == |roster|
            && forall i :: 0 <= i < |r| ==>
                 && r[i].id == firstId + i && r[i].studentId == roster[i].id && r[i].teacherId == teacherId
                 && LectureOf(r[i]) == lecture && r[i].status == StatusFor(form, roster[i].id)
  {
  }

  /** Taking one more roster student adds that student's row at the end. */
  lemma NewRowsStep(firstId: nat, roster: seq<Student>, lecture: Lecture, teacherId: nat,
                    form: map<string, string>, i: nat)
    requires i < |roster|
    ensures NewRows(firstId, roster[..i + 1], lecture, teacherId, form)
            == NewRows(firstId, roster[..i], lecture, teacherId, form) + [RowFor(firstId + i, roster[i], lecture, teacherId, form)]
  {
  }

  /** The roster student `roster[k]` gets exactly one new row, carrying the
      submitted descriptor, its own status field and the teacher's id. */
  lemma {:induction false} NewRowsForStudent(firstId: nat, roster: seq<Student>, lecture: Lecture, teacherId: nat,
                                             form: map<string, string>, k: nat)
    requires k < |roster|
    requires forall i, j :: 0 <= i < j < |roster| ==> roster[i].id != roster[j].id
    ensures var row := RowFor(firstId + k, roster[k], lecture, teacherId, form);
            && RowsOfStudent(NewRows(firstId, roster, lecture, teacherId, form), roster[k].id) == [row]
            && row.date == lecture.date && row.subject == lecture.subject && row.lectureNo == lecture.lectureNo
            && row.sem == lecture.sem && row.stream == lecture.stream && row.division == lecture.division
            && row.studentId == roster[k].id && row.teacherId == teacherId
            && row.status == (if StatusKey(roster[k].id) in form then form[StatusKey(roster[k].id)] else "absent")
  {
    var rows := NewRows(firstId, roster, lecture, teacherId, form);
    var id := roster[k].id;
    forall j | 0 <= j < |rows| && j != k ensures rows[j].studentId != id {
      if j < k { assert roster[j].id != roster[k].id; } else { assert roster[k].id != roster[j].id; }
    }
    FilterSingle(rows, (a: Attendance) => a.studentId == id, k);
  }

  /** A student outside the roster gets no new row. */
  lemma {:induction false} NewRowsForOthers(firstId: nat, roster: seq<Student>, lecture: Lecture, teacherId: nat,
                                            form: map<string, string>, id: nat)
    requires forall k :: 0 <= k < |roster| ==> roster[k].id != id
    ensures RowsOfStudent(NewRows(firstId, roster, lecture, teacherId, form), id) == []
  {
    var rows := NewRows(firstId, roster, lecture, teacherId, form);
    FilterNone(rows, (a: Attendance) => a.studentId == id);
  }

  /** After a submission, the rows of roster student `roster[k]` are their old
      rows plus exactly one new row. Submitting the same lecture twice
      therefore gives every roster student two rows for it. */
  lemma RecordingAddsOneRow(existing: seq<Attendance>, roster: seq<Student>, lecture: Lecture, teacherId: nat,
                            form: map<string, string>, k: nat)
    requires k < |roster|
    requires forall i, j :: 0 <= i < j < |roster| ==> roster[i].id != roster[j].id
    ensures RowsOfStudent(existing + NewRows(|existing| + 1, roster, lecture, teacherId, form), roster[k].id)
              == RowsOfStudent(existing, roster[k].id) + [RowFor(|existing| + 1 + k, roster[k], lecture, teacherId, form)]
  {
    var added := NewRows(|existing| + 1, roster, lecture, teacherId, form);
    var id := roster[k].id;
    assert RowsOfStudent(existing + added, id) == RowsOfStudent(existing, id) + RowsOfStudent(added, id) by {
      FilterAppend(existing, added, (a: Attendance) => a.studentId == id);
    }
    assert RowsOfStudent(added, id) == [RowFor(|existing| + 1 + k, roster[k], lecture, teacherId, form)] by {
      NewRowsForStudent(|existing| + 1, roster, lecture, teacherId, form, k);
    }
  }

  /** After a submission, the rows of a student outside the roster are unchanged. */
  lemma RecordingLeavesOthers(existing: seq<Attendance>, roster: seq<Student>, lecture: Lecture, teacherId: nat,
                              form: map<string, string>, id: nat)
    requires forall k :: 0 <= k < |roster| ==> roster[k].id != id
    ensures RowsOfStudent(existing + NewRows(|existing| + 1, roster, lecture, teacherId, form), id)
              == RowsOfStudent(existing, id)
  {
    var added := NewRows(|existing| + 1, roster, lecture, teacherId, form);
    FilterAppend(existing, added, (a: Attendance) => a.studentId == id);
    NewRowsForOthers(|existing| + 1, roster, lecture, teacherId, form, id);
    assert RowsOfStudent(existing, id) + [] == RowsOfStudent(existing, id);
  }

  /** The example of a section of three students, two marked present: three
      rows, the two marked ones 'present' and the unmarked one 'absent'. */
  lemma ThreeStudentsTwoPresent(s1: Student, s2: Student, s3: Student, lecture: Lecture, teacherId: nat)
    requires s1.id == 1 && s2.id == 2 && s3.id == 3
    ensures var form := map["status_1" := "present", "status_3" := "present"];
            var rows := NewRows(1, [s1, s2, s3], lecture, teacherId, form);
            |rows| == 3 && rows[0].status == "present" && rows[1].status == "absent" && rows[2].status == "present"
  {
    assert StatusKey(1) == "status_1";
    assert StatusKey(2) == "status_2";
    assert StatusKey(3) == "status_3";
  }
}
