/**
  The student registry as a value: its state, the effect of each operation on
  that state and what each operation reports, and the properties the registry
  promises (identifiers handed out in creation order, paired dictionaries,
  append-only growth, idempotent enrolment, precise frames).
 */
module Registry {
  import opened Records

  /** The registry's collections and its two identifier counters. */
  datatype State = State(
    students: seq<StudentRecord>,
    courses: seq<Course>,
    nextStudentId: int,
    nextCourseId: int)

  /** The invariant of every reachable state: both counters start at 1 and
      grow by one per creation, so the i-th created entity carries id i + 1;
      every student satisfies the key-set invariant. */
  predicate Valid(s: State) {
    && s.nextStudentId == |s.students| + 1
    && s.nextCourseId == |s.courses| + 1
    && (forall i :: 0 <= i < |s.students| ==> s.students[i].id == i + 1 && WellFormed(s.students[i]))
    && (forall i :: 0 <= i < |s.courses| ==> s.courses[i].id == i + 1)
  }

  /** A new registry: no students, no courses, both counters at 1. */
  function Init(): (s: State)
    ensures Valid(s) && s.students == [] && s.courses == []
  {
    State([], [], 1, 1)
  }

  /** The linear scan for the first student with the given id. */
  function FindStudent(ss: seq<StudentRecord>, id: int): (r: Option<nat>)
    ensures r.Some? ==> r.value < |ss| && ss[r.value].id == id
    ensures r.Some? ==> forall j :: 0 <= j < r.value ==> ss[j].id != id
    ensures r.None? ==> forall j :: 0 <= j < |ss| ==> ss[j].id != id
  {
    if ss == [] then None
    else if ss[0].id == id then Some(0)
    else match FindStudent(ss[1..], id)
      case None => None
      case Some(k) => Some(k + 1)
  }

  // ---------------------------------------------------------------------
  // Operations

  function AddStudent(s: State, name: string, dateOfBirth: Date, contactInfo: string): State {
    s.(students := s.students + [NewStudent(s.nextStudentId, name, dateOfBirth, contactInfo)],
       nextStudentId := s.nextStudentId + 1)
  }

  function AddCourse(s: State, courseName: string): State {
    s.(courses := s.courses + [Course(s.nextCourseId, courseName)],
       nextCourseId := s.nextCourseId + 1)
  }

  /** A student's record after enrolment in course `cid`: an empty grade list
      and an empty attendance list for that course, created together. */
  function EnrolIn(st: StudentRecord, cid: int): StudentRecord {
    st.(enrolled := st.enrolled + [cid],
        attendance := st.attendance[cid := []],
        grades := st.grades[cid := []])
  }

  /** Enrolment looks the student up and tests the attendance dictionary only;
      the course id is never checked against the course list. */
  function Enroll(s: State, studentId: int, courseId: int): State {
    match FindStudent(s.students, studentId)
    case None => s
    case Some(i) =>
      if courseId in s.students[i].attendance then s
      else s.(students := s.students[i := EnrolIn(s.students[i], courseId)])
  }

  function EnrollStatus(s: State, studentId: int, courseId: int): Status {
    match FindStudent(s.students, studentId)
    case None => StudentNotFound
    case Some(i) => if courseId in s.students[i].attendance then AlreadyEnrolled else Enrolled
  }

  function RecordAttendance(s: State, studentId: int, courseId: int, isPresent: bool): State {
    match FindStudent(s.students, studentId)
    case None => s
    case Some(i) =>
      var st := s.students[i];
      if courseId in st.attendance then
        s.(students := s.students[i := st.(attendance := st.attendance[courseId := st.attendance[courseId] + [isPresent]])])
      else s
  }

  function RecordAttendanceStatus(s: State, studentId: int, courseId: int): Status {
    match FindStudent(s.students, studentId)
    case None => NotFoundOrNotEnrolled
    case Some(i) => if courseId in s.students[i].attendance then AttendanceRecorded else NotFoundOrNotEnrolled
  }

  /** Grade recording tests the grade dictionary (not the attendance one). */
  function AddGrade(s: State, studentId: int, courseId: int, grade: real): State {
    match FindStudent(s.students, studentId)
    case None => s
    case Some(i) =>
      var st := s.students[i];
      if courseId in st.grades then
        s.(students := s.students[i := st.(grades := st.grades[courseId := st.grades[courseId] + [grade]])])
      else s
  }

  function AddGradeStatus(s: State, studentId: int, courseId: int): Status {
    match FindStudent(s.students, studentId)
    case None => NotFoundOrNotEnrolled
    case Some(i) => if courseId in s.students[i].grades then GradeAdded else NotFoundOrNotEnrolled
  }

  /** One call of a mutating operation, with all of its arguments. */
  datatype Command =
    | AddStudentCmd(name: string, dateOfBirth: Date, contactInfo: string)
    | AddCourseCmd(courseName: string)
    | EnrollCmd(studentId: int, courseId: int)
    | RecordAttendanceCmd(studentId: int, courseId: int, date: Date, isPresent: bool)
    | AddGradeCmd(studentId: int, courseId: int, assessment: string, grade: real)

  function Step(s: State, cmd: Command): State {
    match cmd
    case AddStudentCmd(name, dob, contact) => AddStudent(s, name, dob, contact)
    case AddCourseCmd(courseName) => AddCourse(s, courseName)
    case EnrollCmd(sid, cid) => Enroll(s, sid, cid)
    case RecordAttendanceCmd(sid, cid, _, present) => RecordAttendance(s, sid, cid, present)
    case AddGradeCmd(sid, cid, _, grade) => AddGrade(s, sid, cid, grade)
  }

  /** A sequence of calls, made one after the other. */
  function Run(s: State, cmds: seq<Command>): State
    decreases |cmds|
  {
    if cmds == [] then s else Run(Step(s, cmds[0]), cmds[1..])
  }

  /** Running two call sequences one after the other is running their
      concatenation. */
  lemma {:induction false} RunAppend(s: State, first: seq<Command>, second: seq<Command>)
    ensures Run(s, first + second) == Run(Run(s, first), second)
    decreases |first|
  {
    if first == [] {
      assert first + second == second;
    } else {
      assert (first + second)[1..] == first[1..] + second;
      RunAppend(Step(s, first[0]), first[1..], second);
    }
  }

  // ---------------------------------------------------------------------
  // Monotonic growth

  /** `b` is `a` with, at most, more enrolments and longer lists. */
  predicate StudentGrows(a: StudentRecord, b: StudentRecord) {
    && a.id == b.id && a.name == b.name
    && a.dateOfBirth == b.dateOfBirth && a.contactInfo == b.contactInfo
    && a.enrolled <= b.enrolled
    && (forall c :: c in a.grades ==> c in b.grades && a.grades[c] <= b.grades[c])
    && (forall c :: c in a.attendance ==> c in b.attendance && a.attendance[c] <= b.attendance[c])
  }

  /** Nothing is ever removed: students and courses are only added, counters
      only increase, enrolments and recorded entries are only appended. */
  predicate Grows(s: State, t: State) {
    && |s.students| <= |t.students|
    && (forall i :: 0 <= i < |s.students| ==> StudentGrows(s.students[i], t.students[i]))
    && s.courses <= t.courses
    && s.nextStudentId <= t.nextStudentId
    && s.nextCourseId <= t.nextCourseId
  }

  lemma GrowsTransitive(s: State, t: State, u: State)
    requires Grows(s, t) && Grows(t, u)
    ensures Grows(s, u)
  {
    forall i | 0 <= i < |s.students|
      ensures StudentGrows(s.students[i], u.students[i])
    {
      var a, b, c := s.students[i], t.students[i], u.students[i];
      assert StudentGrows(a, b) && StudentGrows(b, c);
    }
  }

  // ---------------------------------------------------------------------
  // Lookup

  /** The first-match characterisation determines the scan's result. */
  lemma FindStudentIsFirstMatch(ss: seq<StudentRecord>, id: int, i: nat)
    requires i < |ss| && ss[i].id == id
    requires forall j :: 0 <= j < i ==> ss[j].id != id
    ensures FindStudent(ss, id) == Some(i)
  {
  }

  /** In a valid state the student with id k sits at position k - 1, and
      every other id is unknown. */
  lemma FindStudentInValid(s: State, id: int)
    requires Valid(s)
    ensures FindStudent(s.students, id) == if 1 <= id <= |s.students| then Some(id - 1) else None
  {
    if 1 <= id <= |s.students| {
      FindStudentIsFirstMatch(s.students, id, id - 1);
    }
  }

  /** The scan depends on the ids only. */
  lemma FindStudentSameIds(ss: seq<StudentRecord>, tt: seq<StudentRecord>, id: int)
    requires |ss| == |tt|
    requires forall j :: 0 <= j < |ss| ==> ss[j].id == tt[j].id
    ensures FindStudent(ss, id) == FindStudent(tt, id)
  {
    match FindStudent(ss, id)
    case None =>
    case Some(i) => FindStudentIsFirstMatch(tt, id, i);
  }

  /** Student ids are distinct, positive and below the counter. */
  lemma StudentIdsDistinct(s: State)
    requires Valid(s)
    ensures forall i, j :: 0 <= i < j < |s.students| ==> s.students[i].id != s.students[j].id
    ensures forall i :: 0 <= i < |s.students| ==> 0 < s.students[i].id < s.nextStudentId
  {
  }

  // ---------------------------------------------------------------------
  // Creation

  /** AddStudent hands out the counter's value as a fresh id, appends the new
      student at the end, and leaves every earlier lookup as it was. */
  lemma {:induction false} AddStudentSpec(s: State, name: string, dateOfBirth: Date, contactInfo: string)
    requires Valid(s)
    ensures var t := AddStudent(s, name, dateOfBirth, contactInfo);
      && Valid(t) && Grows(s, t)
      && FindStudent(s.students, s.nextStudentId) == None
      && FindStudent(t.students, s.nextStudentId) == Some(|s.students|)
      && t.students[..|s.students|] == s.students
      && t.students[|s.students|] == NewStudent(s.nextStudentId, name, dateOfBirth, contactInfo)
      && t.students[|s.students|].name == name
      && t.students[|s.students|].enrolled == []
      && t.nextStudentId == s.nextStudentId + 1
      && t.courses == s.courses && t.nextCourseId == s.nextCourseId
      && forall id :: id != s.nextStudentId ==> FindStudent(t.students, id) == FindStudent(s.students, id)
  {
    var t := AddStudent(s, name, dateOfBirth, contactInfo);
    assert Valid(t);
    FindStudentInValid(s, s.nextStudentId);
    FindStudentInValid(t, s.nextStudentId);
    forall id | id != s.nextStudentId
      ensures FindStudent(t.students, id) == FindStudent(s.students, id)
    {
      FindStudentInValid(s, id);
      FindStudentInValid(t, id);
    }
  }

  /** AddCourse hands out the counter's value as the course id, appends the
      course at the end, and changes nothing else. */
  lemma AddCourseSpec(s: State, courseName: string)
    requires Valid(s)
    ensures var t := AddCourse(s, courseName);
      && Valid(t) && Grows(s, t)
      && t.courses == s.courses + [Course(s.nextCourseId, courseName)]
      && (forall i :: 0 <= i < |s.courses| ==> s.courses[i].id != s.nextCourseId)
      && t.nextCourseId == s.nextCourseId + 1
      && t.students == s.students && t.nextStudentId == s.nextStudentId
  {
  }

  // ---------------------------------------------------------------------
  // Enrolment

  lemma EnrolInWellFormed(st: StudentRecord, cid: int)
    requires WellFormed(st) && cid !in st.attendance
    ensures WellFormed(EnrolIn(st, cid)) && StudentGrows(st, EnrolIn(st, cid))
  {
    var e := EnrolIn(st, cid);
    forall i, j | 0 <= i < j < |e.enrolled|
      ensures e.enrolled[i] != e.enrolled[j]
    {
      if j == |st.enrolled| {
        assert e.enrolled[i] == st.enrolled[i];
      }
    }
  }

  lemma EnrollPreservesValid(s: State, studentId: int, courseId: int)
    requires Valid(s)
    ensures Valid(Enroll(s, studentId, courseId))
    ensures Grows(s, Enroll(s, studentId, courseId))
  {
    match FindStudent(s.students, studentId)
    case None =>
    case Some(i) =>
      if courseId !in s.students[i].attendance {
        EnrolInWellFormed(s.students[i], courseId);
      }
  }

  /** Enrolment changes the state exactly when it reports success, and then it
      has created both empty lists for the course and appended the course to
      the enrolment order. */
  lemma EnrollOutcome(s: State, studentId: int, courseId: int)
    ensures Enroll(s, studentId, courseId) != s <==> EnrollStatus(s, studentId, courseId) == Enrolled
    ensures EnrollStatus(s, studentId, courseId) == Enrolled ==>
      var i := FindStudent(s.students, studentId).value;
      var st := Enroll(s, studentId, courseId).students[i];
      && courseId !in s.students[i].attendance
      && st.attendance[courseId] == [] && st.grades[courseId] == []
      && st.enrolled == s.students[i].enrolled + [courseId]
  {
    match FindStudent(s.students, studentId)
    case None =>
    case Some(i) =>
      if courseId !in s.students[i].attendance {
        var t := Enroll(s, studentId, courseId);
        assert courseId in t.students[i].attendance;
      }
  }

  /** Enrolling twice is the same as enrolling once, and the second call
      reports that nothing was done. */
  lemma {:induction false} EnrollIdempotent(s: State, studentId: int, courseId: int)
    ensures Enroll(Enroll(s, studentId, courseId), studentId, courseId) == Enroll(s, studentId, courseId)
    ensures EnrollStatus(Enroll(s, studentId, courseId), studentId, courseId) != Enrolled
  {
    var t := Enroll(s, studentId, courseId);
    FindStudentSameIds(s.students, t.students, studentId);
  }

  /** Enrolment leaves every other student, every existing list and the
      course list untouched. */
  lemma EnrollFrame(s: State, studentId: int, courseId: int)
    requires Valid(s)
    ensures var t := Enroll(s, studentId, courseId);
      && |t.students| == |s.students|
      && t.courses == s.courses
      && t.nextStudentId == s.nextStudentId && t.nextCourseId == s.nextCourseId
      && (forall j :: 0 <= j < |s.students| && FindStudent(s.students, studentId) != Some(j) ==>
            t.students[j] == s.students[j])
      && (forall j, c :: 0 <= j < |s.students| && c in s.students[j].attendance ==>
            c in t.students[j].attendance && t.students[j].attendance[c] == s.students[j].attendance[c])
      && (forall j, c :: 0 <= j < |s.students| && c in s.students[j].grades ==>
            c in t.students[j].grades && t.students[j].grades[c] == s.students[j].grades[c])
  {
  }

  /** The course id is not checked against the course list: enrolment does
      the same whatever courses exist. */
  lemma EnrollIgnoresCourseList(s: State, studentId: int, courseId: int, courses: seq<Course>)
    ensures Enroll(s.(courses := courses), studentId, courseId) == Enroll(s, studentId, courseId).(courses := courses)
    ensures EnrollStatus(s.(courses := courses), studentId, courseId) == EnrollStatus(s, studentId, courseId)
  {
  }

  /** Any known student can be enrolled in any course id it does not yet
      have, whether or not a course with that id exists. */
  lemma EnrollAcceptsAnyCourseId(s: State, studentId: int, courseId: int)
    requires Valid(s) && 1 <= studentId <= |s.students|
    requires courseId !in s.students[studentId - 1].attendance
    ensures EnrollStatus(s, studentId, courseId) == Enrolled
    ensures var st := Enroll(s, studentId, courseId).students[studentId - 1];
      courseId in st.grades && courseId in st.attendance
  {
    FindStudentInValid(s, studentId);
  }

  /** An unknown student id changes nothing and is reported. */
  lemma EnrollUnknownStudent(s: State, studentId: int, courseId: int)
    requires Valid(s) && !(1 <= studentId <= |s.students|)
    ensures Enroll(s, studentId, courseId) == s
    ensures EnrollStatus(s, studentId, courseId) == StudentNotFound
  {
    FindStudentInValid(s, studentId);
  }

  // ---------------------------------------------------------------------
  // Attendance and grades

  /** RecordAttendance appends `isPresent` to exactly one list when the student
      is found and enrolled, and otherwise leaves the whole state unchanged. */
  lemma RecordAttendanceFrame(s: State, studentId: int, courseId: int, isPresent: bool)
    ensures var t := RecordAttendance(s, studentId, courseId, isPresent);
      t != s <==> RecordAttendanceStatus(s, studentId, courseId) == AttendanceRecorded
    ensures var t := RecordAttendance(s, studentId, courseId, isPresent);
      RecordAttendanceStatus(s, studentId, courseId) == AttendanceRecorded ==>
      var i := FindStudent(s.students, studentId).value;
      && |t.students| == |s.students| && t.courses == s.courses
      && t.nextStudentId == s.nextStudentId && t.nextCourseId == s.nextCourseId
      && (forall j :: 0 <= j < |s.students| && j != i ==> t.students[j] == s.students[j])
      && t.students[i].attendance[courseId] == s.students[i].attendance[courseId] + [isPresent]
      && t.students[i].attendance.Keys == s.students[i].attendance.Keys
      && (forall c :: c in s.students[i].attendance && c != courseId ==>
            t.students[i].attendance[c] == s.students[i].attendance[c])
      && t.students[i].grades == s.students[i].grades
      && t.students[i].enrolled == s.students[i].enrolled
  {
    match FindStudent(s.students, studentId)
    case None =>
    case Some(i) =>
      if courseId in s.students[i].attendance {
        var t := RecordAttendance(s, studentId, courseId, isPresent);
        assert |t.students[i].attendance[courseId]| != |s.students[i].attendance[courseId]|;
      }
  }

  lemma RecordAttendancePreservesValid(s: State, studentId: int, courseId: int, isPresent: bool)
    requires Valid(s)
    ensures Valid(RecordAttendance(s, studentId, courseId, isPresent))
    ensures Grows(s, RecordAttendance(s, studentId, courseId, isPresent))
  {
  }

  /** AddGrade appends `grade` to exactly one list when the student is found
      and has that course in its grade dictionary, and otherwise leaves the
      whole state unchanged. */
  lemma AddGradeFrame(s: State, studentId: int, courseId: int, grade: real)
    ensures var t := AddGrade(s, studentId, courseId, grade);
      t != s <==> AddGradeStatus(s, studentId, courseId) == GradeAdded
    ensures var t := AddGrade(s, studentId, courseId, grade);
      AddGradeStatus(s, studentId, courseId) == GradeAdded ==>
      var i := FindStudent(s.students, studentId).value;
      && |t.students| == |s.students| && t.courses == s.courses
      && t.nextStudentId == s.nextStudentId && t.nextCourseId == s.nextCourseId
      && (forall j :: 0 <= j < |s.students| && j != i ==> t.students[j] == s.students[j])
      && t.students[i].grades[courseId] == s.students[i].grades[courseId] + [grade]
      && t.students[i].grades.Keys == s.students[i].grades.Keys
      && (forall c :: c in s.students[i].grades && c != courseId ==>
            t.students[i].grades[c] == s.students[i].grades[c])
      && t.students[i].attendance == s.students[i].attendance
      && t.students[i].enrolled == s.students[i].enrolled
  {
    match FindStudent(s.students, studentId)
    case None =>
    case Some(i) =>
      if courseId in s.students[i].grades {
        var t := AddGrade(s, studentId, courseId, grade);
        assert |t.students[i].grades[courseId]| != |s.students[i].grades[courseId]|;
      }
  }

  lemma AddGradePreservesValid(s: State, studentId: int, courseId: int, grade: real)
    requires Valid(s)
    ensures Valid(AddGrade(s, studentId, courseId, grade))
    ensures Grows(s, AddGrade(s, studentId, courseId, grade))
  {
  }

  /** In a valid state both guards agree: attendance and grades can be
      recorded for exactly the same (student, course) pairs. */
  lemma GuardsAgree(s: State, studentId: int, courseId: int)
    requires Valid(s)
    ensures RecordAttendanceStatus(s, studentId, courseId) == AttendanceRecorded
        <==> AddGradeStatus(s, studentId, courseId) == GradeAdded
  {
  }

  /** The attendance date and the assessment label are not stored. */
  lemma StepIgnoresDateAndLabel(s: State, studentId: int, courseId: int, d1: Date, d2: Date,
                                isPresent: bool, a1: string, a2: string, grade: real)
    ensures Step(s, RecordAttendanceCmd(studentId, courseId, d1, isPresent))
         == Step(s, RecordAttendanceCmd(studentId, courseId, d2, isPresent))
    ensures Step(s, AddGradeCmd(studentId, courseId, a1, grade))
         == Step(s, AddGradeCmd(studentId, courseId, a2, grade))
  {
  }

  // ---------------------------------------------------------------------
  // Reachable states

  lemma StepPreservesValid(s: State, cmd: Command)
    requires Valid(s)
    ensures Valid(Step(s, cmd)) && Grows(s, Step(s, cmd))
  {
    match cmd
    case AddStudentCmd(name, dob, contact) => AddStudentSpec(s, name, dob, contact);
    case AddCourseCmd(courseName) => AddCourseSpec(s, courseName);
    case EnrollCmd(sid, cid) => EnrollPreservesValid(s, sid, cid);
    case RecordAttendanceCmd(sid, cid, _, present) => RecordAttendancePreservesValid(s, sid, cid, present);
    case AddGradeCmd(sid, cid, _, grade) => AddGradePreservesValid(s, sid, cid, grade);
  }

  /** Every state reached by a sequence of calls satisfies the invariant and
      has only grown. */
  lemma {:induction false} RunPreservesValid(s: State, cmds: seq<Command>)
    requires Valid(s)
    ensures Valid(Run(s, cmds)) && Grows(s, Run(s, cmds))
    decreases |cmds|
  {
    if cmds != [] {
      var t := Step(s, cmds[0]);
      StepPreservesValid(s, cmds[0]);
      RunPreservesValid(t, cmds[1..]);
      GrowsTransitive(s, t, Run(t, cmds[1..]));
    }
  }

  /** From a new registry, the k-th student ever added has id k and is the
      k-th in the student list; likewise for courses. */
  lemma ReachableIdsFollowCreationOrder(cmds: seq<Command>)
    ensures var s := Run(Init(), cmds);
      && (forall i :: 0 <= i < |s.students| ==> s.students[i].id == i + 1)
      && (forall i :: 0 <= i < |s.courses| ==> s.courses[i].id == i + 1)
      && s.nextStudentId == |s.students| + 1 && s.nextCourseId == |s.courses| + 1
  {
    RunPreservesValid(Init(), cmds);
  }
}
