/**
  Report cards: for one student, one line per enrolled course with the mean
  grade and the attendance counts. The report is a value computed from the
  registry state; producing it changes nothing.
 */
module ReportCards {
  import opened Records
  import opened Registry

  /** Sum of a grade list, accumulated from the first grade to the last. */
  function Sum(gs: seq<real>): real {
    if gs == [] then 0.0 else Sum(gs[..|gs| - 1]) + gs[|gs| - 1]
  }

  /** Arithmetic mean of the grades, and 0 when there are none. */
  function Mean(gs: seq<real>): (m: real)
    ensures gs == [] ==> m == 0.0
  {
    if |gs| == 0 then 0.0 else Sum(gs) / |gs| as real
  }

  /** Number of sessions marked present. */
  function CountTrue(bs: seq<bool>): (n: nat)
    ensures n <= |bs|
    ensures n == |bs| <==> forall k :: 0 <= k < |bs| ==> bs[k]
  {
    if bs == [] then 0 else CountTrue(bs[..|bs| - 1]) + (if bs[|bs| - 1] then 1 else 0)
  }

  /** One printed course line: course id, mean grade, attended / total. */
  datatype ReportLine = ReportLine(courseId: int, average: real, attended: nat, total: nat)

  datatype Report =
    | NotFound(studentId: int)
    | Card(studentId: int, name: string, lines: seq<ReportLine>)

  function Line(st: StudentRecord, courseId: int): (l: ReportLine)
    requires courseId in st.grades && courseId in st.attendance
    ensures l.courseId == courseId
    ensures l.attended <= l.total && l.total == |st.attendance[courseId]|
    ensures st.grades[courseId] == [] ==> l.average == 0.0
  {
    var gs := st.grades[courseId];
    var att := st.attendance[courseId];
    ReportLine(courseId, Mean(gs), CountTrue(att), |att|)
  }

  /** The lines for the given course ids, in that order. */
  function Lines(st: StudentRecord, keys: seq<int>): (ls: seq<ReportLine>)
    requires forall k :: 0 <= k < |keys| ==> keys[k] in st.grades && keys[k] in st.attendance
    ensures |ls| == |keys|
    ensures forall k :: 0 <= k < |keys| ==> ls[k] == Line(st, keys[k])
  {
    if keys == [] then [] else Lines(st, keys[..|keys| - 1]) + [Line(st, keys[|keys| - 1])]
  }

  /** The report card of a student: not found, or one line per enrolled
      course in enrolment order. */
  function ReportCard(s: State, studentId: int): (r: Report)
    requires Valid(s)
    ensures r.NotFound? <==> FindStudent(s.students, studentId).None?
    ensures r.NotFound? ==> r.studentId == studentId
    ensures r.Card? ==>
      var st := s.students[FindStudent(s.students, studentId).value];
      && r.studentId == st.id == studentId && r.name == st.name
      && |r.lines| == |st.enrolled|
      && forall k :: 0 <= k < |r.lines| ==>
           var c := st.enrolled[k];
           && r.lines[k].courseId == c
           && r.lines[k].attended == CountTrue(st.attendance[c])
           && r.lines[k].attended <= r.lines[k].total == |st.attendance[c]|
           && r.lines[k].average == Mean(st.grades[c])
  {
    match FindStudent(s.students, studentId)
    case None => NotFound(studentId)
    case Some(i) =>
      var st := s.students[i];
      assert forall k :: 0 <= k < |st.enrolled| ==> st.enrolled[k] in st.grades && st.enrolled[k] in st.attendance;
      Card(st.id, st.name, Lines(st, st.enrolled))
  }

  // ---------------------------------------------------------------------
  // Properties of the figures

  lemma {:induction false} SumBounds(gs: seq<real>, lo: real, hi: real)
    requires forall k :: 0 <= k < |gs| ==> lo <= gs[k] <= hi
    ensures |gs| as real * lo <= Sum(gs) <= |gs| as real * hi
  {
    if gs != [] {
      var init := gs[..|gs| - 1];
      SumBounds(init, lo, hi);
      assert |gs| as real * lo == |init| as real * lo + lo;
      assert |gs| as real * hi == |init| as real * hi + hi;
    }
  }

  /** The mean lies between any lower and upper bound of the grades. */
  lemma MeanBounds(gs: seq<real>, lo: real, hi: real)
    requires gs != []
    requires forall k :: 0 <= k < |gs| ==> lo <= gs[k] <= hi
    ensures lo <= Mean(gs) <= hi
  {
    SumBounds(gs, lo, hi);
    var n := |gs| as real;
    assert Mean(gs) * n == Sum(gs);
  }

  lemma SumAppend(gs: seq<real>, g: real)
    ensures Sum(gs + [g]) == Sum(gs) + g
  {
    assert (gs + [g])[..|gs|] == gs;
  }

  /** Appending a grade moves the mean to the mean of the longer list. */
  lemma MeanAppend(gs: seq<real>, g: real)
    ensures Mean(gs + [g]) == (Sum(gs) + g) / (|gs| + 1) as real
  {
    var longer := gs + [g];
    assert Mean(longer) == Sum(longer) / |longer| as real;
    SumAppend(gs, g);
    SameQuotient(Sum(longer), Sum(gs) + g, |longer|, |gs| + 1);
  }

  lemma SameQuotient(x: real, y: real, m: int, n: int)
    requires x == y && m == n && n > 0
    ensures x / m as real == y / n as real
  {
  }

  /** Recording one session adds one to the total and, when present, one to
      the attended count. */
  lemma CountTrueAppend(bs: seq<bool>, b: bool)
    ensures CountTrue(bs + [b]) == CountTrue(bs) + (if b then 1 else 0)
  {
    assert (bs + [b])[..|bs|] == bs;
  }

  // ---------------------------------------------------------------------
  // Reports across operations

  /** A report for an id no student has lists no course. */
  lemma ReportUnknownStudent(s: State, studentId: int)
    requires Valid(s) && !(1 <= studentId <= |s.students|)
    ensures ReportCard(s, studentId) == NotFound(studentId)
  {
    FindStudentInValid(s, studentId);
  }

  /** The card of a found student holds the lines of its enrolment order. */
  lemma CardOf(s: State, studentId: int, i: nat)
    requires Valid(s) && FindStudent(s.students, studentId) == Some(i)
    ensures var st := s.students[i];
      && (forall k :: 0 <= k < |st.enrolled| ==> st.enrolled[k] in st.grades && st.enrolled[k] in st.attendance)
      && ReportCard(s, studentId) == Card(studentId, st.name, Lines(st, st.enrolled))
  {
  }

  // Effects of each operation on one student's lines.

  lemma LinesSnoc(st: StudentRecord, keys: seq<int>, c: int)
    requires forall k :: 0 <= k < |keys| ==> keys[k] in st.grades && keys[k] in st.attendance
    requires c in st.grades && c in st.attendance
    ensures Lines(st, keys + [c]) == Lines(st, keys) + [Line(st, c)]
  {
    assert (keys + [c])[..|keys|] == keys;
  }

  /** Lines depend only on the lists of the listed courses. */
  lemma LinesAgree(a: StudentRecord, b: StudentRecord, keys: seq<int>)
    requires forall k :: 0 <= k < |keys| ==> keys[k] in a.grades && keys[k] in a.attendance
    requires forall k :: 0 <= k < |keys| ==> keys[k] in b.grades && keys[k] in b.attendance
    requires forall k :: 0 <= k < |keys| ==>
      a.grades[keys[k]] == b.grades[keys[k]] && a.attendance[keys[k]] == b.attendance[keys[k]]
    ensures Lines(a, keys) == Lines(b, keys)
  {
    var la, lb := Lines(a, keys), Lines(b, keys);
    forall k | 0 <= k < |keys| ensures la[k] == lb[k] {
      assert la[k] == Line(a, keys[k]) && lb[k] == Line(b, keys[k]);
    }
  }

  lemma LinesAfterEnrol(a: StudentRecord, courseId: int)
    requires WellFormed(a) && courseId !in a.attendance
    ensures WellFormed(EnrolIn(a, courseId))
    ensures var b := EnrolIn(a, courseId);
      Lines(b, b.enrolled) == Lines(a, a.enrolled) + [ReportLine(courseId, 0.0, 0, 0)]
  {
    EnrolInWellFormed(a, courseId);
    var b := EnrolIn(a, courseId);
    assert forall k :: 0 <= k < |a.enrolled| ==> a.enrolled[k] != courseId;
    LinesAgree(a, b, a.enrolled);
    LinesSnoc(b, a.enrolled, courseId);
  }

  lemma LinesAfterAttendance(a: StudentRecord, courseId: int, isPresent: bool)
    requires WellFormed(a) && courseId in a.attendance
    ensures var b := a.(attendance := a.attendance[courseId := a.attendance[courseId] + [isPresent]]);
      var la, lb := Lines(a, a.enrolled), Lines(b, b.enrolled);
      && WellFormed(b)
      && |lb| == |la|
      && forall k :: 0 <= k < |la| ==>
           if la[k].courseId == courseId then
             lb[k] == la[k].(attended := la[k].attended + (if isPresent then 1 else 0), total := la[k].total + 1)
           else lb[k] == la[k]
  {
    var b := a.(attendance := a.attendance[courseId := a.attendance[courseId] + [isPresent]]);
    CountTrueAppend(a.attendance[courseId], isPresent);
    var la, lb := Lines(a, a.enrolled), Lines(b, b.enrolled);
    forall k | 0 <= k < |la|
      ensures if la[k].courseId == courseId then
                lb[k] == la[k].(attended := la[k].attended + (if isPresent then 1 else 0), total := la[k].total + 1)
              else lb[k] == la[k]
    {
      var c := a.enrolled[k];
      assert la[k] == Line(a, c) && lb[k] == Line(b, c);
    }
  }

  lemma LinesAfterGrade(a: StudentRecord, courseId: int, grade: real)
    requires WellFormed(a) && courseId in a.grades
    ensures var b := a.(grades := a.grades[courseId := a.grades[courseId] + [grade]]);
      var la, lb := Lines(a, a.enrolled), Lines(b, b.enrolled);
      && WellFormed(b)
      && |lb| == |la|
      && forall k :: 0 <= k < |la| ==>
           if la[k].courseId == courseId then lb[k] == la[k].(average := Mean(a.grades[courseId] + [grade]))
           else lb[k] == la[k]
  {
    var b := a.(grades := a.grades[courseId := a.grades[courseId] + [grade]]);
    var la, lb := Lines(a, a.enrolled), Lines(b, b.enrolled);
    forall k | 0 <= k < |la|
      ensures if la[k].courseId == courseId then lb[k] == la[k].(average := Mean(a.grades[courseId] + [grade]))
              else lb[k] == la[k]
    {
      var c := a.enrolled[k];
      assert la[k] == Line(a, c) && lb[k] == Line(b, c);
    }
  }

  // Effects of each operation on the report card.

  /** A newly enrolled course appears last in the report, with no grade
      (mean 0) and no session (0 of 0). */
  lemma ReportAfterEnroll(s: State, studentId: int, courseId: int)
    requires Valid(s)
    requires EnrollStatus(s, studentId, courseId) == Enrolled
    ensures Valid(Enroll(s, studentId, courseId))
    ensures var before := ReportCard(s, studentId);
      var after := ReportCard(Enroll(s, studentId, courseId), studentId);
      && before.Card? && after.Card?
      && after.lines == before.lines + [ReportLine(courseId, 0.0, 0, 0)]
  {
    var t := Enroll(s, studentId, courseId);
    EnrollPreservesValid(s, studentId, courseId);
    FindStudentSameIds(s.students, t.students, studentId);
    var i := FindStudent(s.students, studentId).value;
    assert t.students[i] == EnrolIn(s.students[i], courseId);
    LinesAfterEnrol(s.students[i], courseId);
    CardOf(s, studentId, i);
    CardOf(t, studentId, i);
  }

  /** After attendance is recorded, the report changes in one line only:
      the total grows by one and the attended count by the new flag. */
  lemma ReportAfterAttendance(s: State, studentId: int, courseId: int, isPresent: bool)
    requires Valid(s)
    requires RecordAttendanceStatus(s, studentId, courseId) == AttendanceRecorded
    ensures Valid(RecordAttendance(s, studentId, courseId, isPresent))
    ensures var before := ReportCard(s, studentId);
      var after := ReportCard(RecordAttendance(s, studentId, courseId, isPresent), studentId);
      && before.Card? && after.Card?
      && |after.lines| == |before.lines|
      && forall k :: 0 <= k < |before.lines| ==>
           if before.lines[k].courseId == courseId then
             after.lines[k] == before.lines[k].(attended := before.lines[k].attended + (if isPresent then 1 else 0),
                                                total := before.lines[k].total + 1)
           else after.lines[k] == before.lines[k]
  {
    var t := RecordAttendance(s, studentId, courseId, isPresent);
    RecordAttendancePreservesValid(s, studentId, courseId, isPresent);
    FindStudentSameIds(s.students, t.students, studentId);
    var i := FindStudent(s.students, studentId).value;
    var a := s.students[i];
    assert t.students[i] == a.(attendance := a.attendance[courseId := a.attendance[courseId] + [isPresent]]);
    LinesAfterAttendance(a, courseId, isPresent);
    CardOf(s, studentId, i);
    CardOf(t, studentId, i);
  }

  /** After a grade is added, the report changes in one line only: its mean
      becomes that of the grades with the new one appended. */
  lemma ReportAfterGrade(s: State, studentId: int, courseId: int, grade: real)
    requires Valid(s)
    requires AddGradeStatus(s, studentId, courseId) == GradeAdded
    ensures Valid(AddGrade(s, studentId, courseId, grade))
    ensures var before := ReportCard(s, studentId);
      var after := ReportCard(AddGrade(s, studentId, courseId, grade), studentId);
      var gs := s.students[FindStudent(s.students, studentId).value].grades[courseId];
      && before.Card? && after.Card?
      && |after.lines| == |before.lines|
      && forall k :: 0 <= k < |before.lines| ==>
           if before.lines[k].courseId == courseId then
             after.lines[k] == before.lines[k].(average := (Sum(gs) + grade) / (|gs| + 1) as real)
           else after.lines[k] == before.lines[k]
  {
    var t := AddGrade(s, studentId, courseId, grade);
    AddGradePreservesValid(s, studentId, courseId, grade);
    FindStudentSameIds(s.students, t.students, studentId);
    var i := FindStudent(s.students, studentId).value;
    var a := s.students[i];
    assert t.students[i] == a.(grades := a.grades[courseId := a.grades[courseId] + [grade]]);
    MeanAppend(a.grades[courseId], grade);
    LinesAfterGrade(a, courseId, grade);
    CardOf(s, studentId, i);
    CardOf(t, studentId, i);
  }
}
