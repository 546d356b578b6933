/** The per-subject attendance summary the student dashboard shows: rows are
    grouped by subject (case-sensitively, in order of first appearance) and
    each subject gets its total, present and absent counts and a percentage. */
module Summary {
  import opened Records

  /** One line of the dashboard. */
  datatype SubjectSummary = SubjectSummary(
    subject: string, total: nat, present: nat, absent: nat, percentPresent: real)

  /** The counters kept per subject while scanning the rows. */
  datatype Tally = Tally(total: nat, present: nat, absent: nat)

  /** Only the exact status string 'present' counts as present. */
  predicate IsPresent(a: Attendance) {
    a.status == "present"
  }

  /** Number of rows of `subject`. */
  function Occurrences(rows: seq<Attendance>, subject: string): nat {
    if rows == [] then 0
    else Occurrences(rows[..|rows| - 1], subject) + (if rows[|rows| - 1].subject == subject then 1 else 0)
  }

  /** Number of rows of `subject` whose status is 'present'. */
  function PresentIn(rows: seq<Attendance>, subject: string): nat {
    if rows == [] then 0
    else
      var a := rows[|rows| - 1];
      PresentIn(rows[..|rows| - 1], subject) + (if a.subject == subject && IsPresent(a) then 1 else 0)
  }

  /** Number of rows of `subject` whose status is anything other than 'present'. */
  function AbsentIn(rows: seq<Attendance>, subject: string): nat {
    if rows == [] then 0
    else
      var a := rows[|rows| - 1];
      AbsentIn(rows[..|rows| - 1], subject) + (if a.subject == subject && !IsPresent(a) then 1 else 0)
  }

  /** The subjects of the rows, each once, in order of first appearance: the
      key order of the Python dict built by the first loop. */
  function Subjects(rows: seq<Attendance>): (r: seq<string>)
    ensures forall i, j :: 0 <= i < j < |r| ==> r[i] != r[j]
  {
    if rows == [] then []
    else
      var s := rows[|rows| - 1].subject;
      var p := Subjects(rows[..|rows| - 1]);
      if s in p then p else p + [s]
  }

  /** The subject of every row is listed by `Subjects`. */
  lemma {:induction false} SubjectListed(rows: seq<Attendance>, i: nat)
    requires i < |rows|
    ensures rows[i].subject in Subjects(rows)
  {
    var n := |rows|;
    if i < n - 1 {
      assert rows[..n - 1][i] == rows[i];
      SubjectListed(rows[..n - 1], i);
    }
  }

  /** Every subject `Subjects` lists is the subject of some row, here row `i`. */
  lemma {:induction false} ListedSubjectOccurs(rows: seq<Attendance>, k: nat) returns (i: nat)
    requires k < |Subjects(rows)|
    ensures i < |rows| && rows[i].subject == Subjects(rows)[k]
  {
    var init := rows[..|rows| - 1];
    if k < |Subjects(init)| {
      i := ListedSubjectOccurs(init, k);
      assert init[i] == rows[i];
    } else {
      i := |rows| - 1;
    }
  }

  /** `(present / total) * 100 if total else 0`, in exact arithmetic. */
  function Percent(present: nat, total: nat): (r: real)
    ensures total == 0 ==> r == 0.0
    ensures total > 0 ==> r * (total as real) == 100.0 * (present as real)
    ensures present <= total ==> 0.0 <= r <= 100.0
  {
    if total != 0 then PercentOf(present, total) else 0.0
  }

  function PercentOf(present: nat, total: nat): (r: real)
    requires total > 0
    ensures r * (total as real) == 100.0 * (present as real)
    ensures 0.0 <= r
    ensures present <= total ==> r <= 100.0
  {
    var q := present as real / total as real;
    assert q * (total as real) == present as real;
    assert present <= total ==> q <= 1.0;
    q * 100.0
  }

  /** The dashboard line for one subject, from independent counts over all rows. */
  function Entry(rows: seq<Attendance>, subject: string): SubjectSummary {
    var total := Occurrences(rows, subject);
    var present := PresentIn(rows, subject);
    SubjectSummary(subject, total, present, AbsentIn(rows, subject), Percent(present, total))
  }

  /** The whole summary: one line per subject, in order of first appearance. */
  function SummaryOf(rows: seq<Attendance>): (r: seq<SubjectSummary>)
    ensures |r| == |Subjects(rows)|
    ensures forall k :: 0 <= k < |r| ==> r[k].subject == Subjects(rows)[k]
    ensures forall k :: 0 <= k < |r| ==> r[k].total == r[k].present + r[k].absent
  {
    var subjects := Subjects(rows);
    var r := seq(|subjects|, k requires 0 <= k < |subjects| => Entry(rows, subjects[k]));
    assert forall k :: 0 <= k < |r| ==> r[k].total == r[k].present + r[k].absent by {
      forall k | 0 <= k < |r| ensures r[k].total == r[k].present + r[k].absent {
        OccurrencesSplit(rows, subjects[k]);
      }
    }
    r
  }

  /** The three counts of `subject` over `rows`. */
  function TallyOf(rows: seq<Attendance>, subject: string): Tally {
    Tally(Occurrences(rows, subject), PresentIn(rows, subject), AbsentIn(rows, subject))
  }

  /** How the counts and the subject order change when the scan takes one more row. */
  lemma PrefixStep(rows: seq<Attendance>, i: nat)
    requires i < |rows|
    ensures var sub := rows[i].subject;
            var before := Subjects(rows[..i]);
            Subjects(rows[..i + 1]) == if sub in before then before else before + [sub]
    ensures forall s :: s != rows[i].subject ==> TallyOf(rows[..i + 1], s) == TallyOf(rows[..i], s)
    ensures var t := TallyOf(rows[..i], rows[i].subject);
            TallyOf(rows[..i + 1], rows[i].subject)
              == if rows[i].status == "present" then Tally(t.total + 1, t.present + 1, t.absent)
                 else Tally(t.total + 1, t.present, t.absent + 1)
  {
    assert rows[..i + 1][..i] == rows[..i];
  }

  /** A subject no row carries has all counts zero: the fresh dict entry
      `{'total': 0, 'present': 0, 'absent': 0}` is the right starting point. */
  lemma {:induction false} UnseenSubjectUncounted(rows: seq<Attendance>, subject: string)
    requires subject !in Subjects(rows)
    ensures TallyOf(rows, subject) == Tally(0, 0, 0)
  {
    if rows != [] {
      var init := rows[..|rows| - 1];
      assert forall i :: 0 <= i < |init| ==> init[i] == rows[i];
      UnseenSubjectUncounted(init, subject);
    }
  }

  /** The two loops of the student dashboard: count per subject into a dict,
      then turn each dict entry into a summary line. */
  method Summarize(rows: seq<Attendance>) returns (summary: seq<SubjectSummary>)
    ensures summary == SummaryOf(rows)
  {
    var tallies, order := CountBySubject(rows);
    summary := SummaryLines(rows, tallies, order);
  }

  /** The first loop: one dict entry per subject, created at its first row
      with all counts zero, then bumped once per row. `order` is the dict's
      key order. */
  method CountBySubject(rows: seq<Attendance>) returns (tallies: map<string, Tally>, order: seq<string>)
    ensures order == Subjects(rows)
    ensures forall s :: s in tallies <==> s in order
    ensures forall s :: s in tallies ==> tallies[s] == TallyOf(rows, s)
  {
    tallies, order := map[], [];
    var i := 0;
    while i < |rows|
      invariant 0 <= i <= |rows|
      invariant order == Subjects(rows[..i])
      invariant forall s :: s in tallies <==> s in order
      invariant forall s :: s in tallies ==> tallies[s] == TallyOf(rows[..i], s)
    {
      var a := rows[i];
      var sub := a.subject;
      if sub !in tallies {
        assert TallyOf(rows[..i], sub) == Tally(0, 0, 0) by {
          UnseenSubjectUncounted(rows[..i], sub);
        }
        tallies := tallies[sub := Tally(0, 0, 0)];
        order := order + [sub];
      }
      var t := tallies[sub];
      t := t.(total := t.total + 1);
      if a.status == "present" {
        t := t.(present := t.present + 1);
      } else {
        t := t.(absent := t.absent + 1);
      }
      tallies := tallies[sub := t];
      assert order == Subjects(rows[..i + 1]) && forall s :: s in tallies ==> tallies[s] == TallyOf(rows[..i + 1], s) by {
        PrefixStep(rows, i);
      }
      i := i + 1;
    }
    assert rows[..i] == rows;
  }

  /** The second loop: one summary line per dict entry, in key order. */
  method SummaryLines(rows: seq<Attendance>, tallies: map<string, Tally>, order: seq<string>)
    returns (summary: seq<SubjectSummary>)
    requires forall s :: s in order ==> s in tallies && tallies[s] == TallyOf(rows, s)
    ensures |summary| == |order|
    ensures forall j :: 0 <= j < |order| ==> summary[j] == Entry(rows, order[j])
  {
    summary := [];
    var k := 0;
    while k < |order|
      invariant 0 <= k <= |order|
      invariant |summary| == k
      invariant forall j :: 0 <= j < k ==> summary[j] == Entry(rows, order[j])
    {
      var sub := order[k];
      var t := tallies[sub];
      var percentPresent := if t.total != 0 then PercentOf(t.present, t.total) else 0.0;
      summary := summary + [SubjectSummary(sub, t.total, t.present, t.absent, percentPresent)];
      k := k + 1;
    }
  }

  // ---------------------------------------------------------------------------
  // Properties of the summary

  /** Every row of a subject is counted either as present or as absent, never both. */
  lemma {:induction false} OccurrencesSplit(rows: seq<Attendance>, subject: string)
    ensures Occurrences(rows, subject) == PresentIn(rows, subject) + AbsentIn(rows, subject)
  {
    if rows != [] {
      OccurrencesSplit(rows[..|rows| - 1], subject);
    }
  }

  /** A subject that occurs in the rows occurs at least once, so the zero-total
      guard of the percentage never fires on a summary line. */
  lemma {:induction false} OccurringSubjectCounted(rows: seq<Attendance>, i: nat)
    requires i < |rows|
    ensures Occurrences(rows, rows[i].subject) > 0
  {
    var n := |rows|;
    if i < n - 1 {
      assert rows[..n - 1][i] == rows[i];
      OccurringSubjectCounted(rows[..n - 1], i);
    }
  }

  /** The line of a subject that occurs in the rows: `total == present +
      absent`, the total is positive and the percentage lies in [0, 100]. */
  lemma {:induction false} EntryBalanced(rows: seq<Attendance>, i: nat)
    requires i < |rows|
    ensures var e := Entry(rows, rows[i].subject);
            && e.total == e.present + e.absent
            && e.total > 0
            && e.percentPresent * (e.total as real) == 100.0 * (e.present as real)
            && 0.0 <= e.percentPresent <= 100.0
  {
    OccurrencesSplit(rows, rows[i].subject);
    OccurringSubjectCounted(rows, i);
  }

  /** Every line of the summary is balanced in the sense of `EntryBalanced`. */
  lemma SummaryLinesBalanced(rows: seq<Attendance>)
    ensures var summary := SummaryOf(rows);
            forall k :: 0 <= k < |summary| ==>
              && summary[k].total == summary[k].present + summary[k].absent
              && summary[k].total > 0
              && 0.0 <= summary[k].percentPresent <= 100.0
  {
    var subjects := Subjects(rows);
    var summary := SummaryOf(rows);
    forall k | 0 <= k < |summary|
      ensures && summary[k].total == summary[k].present + summary[k].absent
              && summary[k].total > 0
              && 0.0 <= summary[k].percentPresent <= 100.0
    {
      var i := ListedSubjectOccurs(rows, k);
      EntryBalanced(rows, i);
    }
  }

  /** The summary names each subject at most once. */
  lemma SummaryNamesSubjectsOnce(rows: seq<Attendance>)
    ensures var summary := SummaryOf(rows);
            forall k, l :: 0 <= k < l < |summary| ==> summary[k].subject != summary[l].subject
  {
    var subjects := Subjects(rows);
    assert forall k :: 0 <= k < |subjects| ==> SummaryOf(rows)[k].subject == subjects[k];
  }

  /** The subject of every row has a summary line, here line `k`. */
  lemma RowSubjectSummarised(rows: seq<Attendance>, i: nat) returns (k: nat)
    requires i < |rows|
    ensures k < |SummaryOf(rows)| && SummaryOf(rows)[k].subject == rows[i].subject
  {
    SubjectListed(rows, i);
    var subjects := Subjects(rows);
    k :| 0 <= k < |subjects| && subjects[k] == rows[i].subject;
  }

  /** Every summary line is about a subject some row carries, here row `i`. */
  lemma SummarisedSubjectOccurs(rows: seq<Attendance>, k: nat) returns (i: nat)
    requires k < |SummaryOf(rows)|
    ensures i < |rows| && rows[i].subject == SummaryOf(rows)[k].subject
  {
    i := ListedSubjectOccurs(rows, k);
  }

  /** Sum of the totals of summary lines. */
  function SumTotals(summary: seq<SubjectSummary>): nat {
    if summary == [] then 0 else SumTotals(summary[..|summary| - 1]) + summary[|summary| - 1].total
  }

  /** Sum of `Occurrences(rows, s)` over the subjects `s` in `subjects`. */
  function SumOccurrences(rows: seq<Attendance>, subjects: seq<string>): nat {
    if subjects == [] then 0
    else SumOccurrences(rows, subjects[..|subjects| - 1]) + Occurrences(rows, subjects[|subjects| - 1])
  }

  /** How often `s` occurs in `subjects`. */
  function Multiplicity(subjects: seq<string>, s: string): nat {
    if subjects == [] then 0
    else Multiplicity(subjects[..|subjects| - 1], s) + (if subjects[|subjects| - 1] == s then 1 else 0)
  }

  lemma {:induction false} MultiplicityOfDistinct(subjects: seq<string>, s: string)
    requires forall i, j :: 0 <= i < j < |subjects| ==> subjects[i] != subjects[j]
    ensures Multiplicity(subjects, s) == if s in subjects then 1 else 0
  {
    if subjects != [] {
      var init := subjects[..|subjects| - 1];
      assert subjects == init + [subjects[|subjects| - 1]];
      MultiplicityOfDistinct(init, s);
    }
  }

  /** Appending one row adds one to the sum for every listed copy of its subject. */
  lemma {:induction false} SumOccurrencesAppend(rows: seq<Attendance>, a: Attendance, subjects: seq<string>)
    ensures SumOccurrences(rows + [a], subjects) == SumOccurrences(rows, subjects) + Multiplicity(subjects, a.subject)
  {
    if subjects != [] {
      assert (rows + [a])[..|rows + [a]| - 1] == rows;
      SumOccurrencesAppend(rows, a, subjects[..|subjects| - 1]);
    }
  }

  /** Summing the per-subject counts over a list of distinct subjects that covers
      every row counts every row exactly once. */
  lemma {:induction false} SumOccurrencesCovers(rows: seq<Attendance>, subjects: seq<string>)
    requires forall i, j :: 0 <= i < j < |subjects| ==> subjects[i] != subjects[j]
    requires forall i :: 0 <= i < |rows| ==> rows[i].subject in subjects
    ensures SumOccurrences(rows, subjects) == |rows|
  {
    if rows == [] {
      SumOccurrencesOfNothing(subjects);
    } else {
      var init := rows[..|rows| - 1];
      var a := rows[|rows| - 1];
      assert rows == init + [a];
      SumOccurrencesCovers(init, subjects);
      SumOccurrencesAppend(init, a, subjects);
      MultiplicityOfDistinct(subjects, a.subject);
    }
  }

  lemma {:induction false} SumOccurrencesOfNothing(subjects: seq<string>)
    ensures SumOccurrences([], subjects) == 0
  {
    if subjects != [] {
      SumOccurrencesOfNothing(subjects[..|subjects| - 1]);
    }
  }

  lemma {:induction false} SumTotalsPrefix(rows: seq<Attendance>, k: nat)
    requires k <= |Subjects(rows)|
    ensures SumTotals(SummaryOf(rows)[..k]) == SumOccurrences(rows, Subjects(rows)[..k])
  {
    if k > 0 {
      var summary := SummaryOf(rows);
      var subjects := Subjects(rows);
      assert summary[..k][..k - 1] == summary[..k - 1];
      assert subjects[..k][..k - 1] == subjects[..k - 1];
      SumTotalsPrefix(rows, k - 1);
    }
  }

  /** The totals of the summary add up to the number of the student's rows:
      no row is lost and none is counted twice. */
  lemma SummaryCoversAllRows(rows: seq<Attendance>)
    ensures SumTotals(SummaryOf(rows)) == |rows|
  {
    var subjects := Subjects(rows);
    var summary := SummaryOf(rows);
    forall i | 0 <= i < |rows| ensures rows[i].subject in subjects {
      SubjectListed(rows, i);
    }
    SumTotalsPrefix(rows, |subjects|);
    assert summary[..|subjects|] == summary;
    assert subjects[..|subjects|] == subjects;
    SumOccurrencesCovers(rows, subjects);
  }

  /** One more row of `subject` adds one to the total and, by its status
      alone, one to present (status exactly 'present') or one to absent
      (any other status). */
  lemma RecordedRowCounts(rows: seq<Attendance>, a: Attendance)
    ensures Occurrences(rows + [a], a.subject) == Occurrences(rows, a.subject) + 1
    ensures a.status == "present" ==>
              && PresentIn(rows + [a], a.subject) == PresentIn(rows, a.subject) + 1
              && AbsentIn(rows + [a], a.subject) == AbsentIn(rows, a.subject)
    ensures a.status != "present" ==>
              && PresentIn(rows + [a], a.subject) == PresentIn(rows, a.subject)
              && AbsentIn(rows + [a], a.subject) == AbsentIn(rows, a.subject) + 1
  {
    assert (rows + [a])[..|rows|] == rows;
  }

  /** A student without attendance rows gets an empty summary. */
  lemma EmptySummary()
    ensures SummaryOf([]) == []
  {
  }

  /** Four 'Math' rows, three present and one absent, give one line
      {total 4, present 3, absent 1, 75%}. */
  lemma MathExample(a: Attendance)
    requires a.subject == "Math"
    ensures var p := a.(status := "present");
            var rows := [p, p, a.(status := "absent"), p];
            SummaryOf(rows) == [SubjectSummary("Math", 4, 3, 1, 75.0)]
  {
    var p := a.(status := "present");
    var q := a.(status := "absent");
    var rows := [p, p, q, p];
    assert rows[..3] == [p, p, q] && [p, p, q][..2] == [p, p] && [p, p][..1] == [p] && [p][..0] == [];
    assert Subjects([p]) == ["Math"];
    assert Subjects([p, p]) == ["Math"];
    assert Subjects([p, p, q]) == ["Math"];
    assert Subjects(rows) == ["Math"];
    assert Occurrences([p], "Math") == 1 && PresentIn([p], "Math") == 1 && AbsentIn([p], "Math") == 0;
    assert TallyOf([p], "Math") == Tally(1, 1, 0);
    assert TallyOf([p, p], "Math") == Tally(2, 2, 0);
    assert TallyOf([p, p, q], "Math") == Tally(3, 2, 1);
    assert TallyOf(rows, "Math") == Tally(4, 3, 1);
    assert Percent(3, 4) == 75.0;
  }
}
