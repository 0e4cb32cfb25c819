/**
  Value types of the student registry: the course record, the value view of a
  student record, the calendar date the registry only stores or echoes, and the
  status each registry operation reports.
 */
module Records {

  datatype Option<T> = None | Some(value: T)

  /** A calendar date. The registry never compares or computes with dates:
      a student's date of birth is stored, an attendance date is only echoed. */
  datatype Date = Date(year: int, month: int, day: int)

  /** A course: an identifier handed out by the registry and a name. */
  datatype Course = Course(id: int, name: string)

  /** The value of a student record at one moment.
      `grades` and `attendance` are the two dictionaries keyed by course id;
      `enrolled` is the order in which course ids were first inserted into them,
      which is the order in which a report card lists the courses. */
  datatype StudentRecord = StudentRecord(
    id: int,
    name: string,
    dateOfBirth: Date,
    contactInfo: string,
    enrolled: seq<int>,
    grades: map<int, seq<real>>,
    attendance: map<int, seq<bool>>)

  /** The key-set invariant of a student: a course id is a key of both
      dictionaries or of neither, and `enrolled` lists those keys once each. */
  predicate WellFormed(st: StudentRecord) {
    && (forall i, j :: 0 <= i < j < |st.enrolled| ==> st.enrolled[i] != st.enrolled[j])
    && (forall k :: 0 <= k < |st.enrolled| ==> st.enrolled[k] in st.grades && st.enrolled[k] in st.attendance)
    && (forall c :: c in st.grades ==> c in st.enrolled)
    && (forall c :: c in st.attendance ==> c in st.enrolled)
  }

  /** A freshly constructed student: no course, no grade, no attendance. */
  function NewStudent(id: int, name: string, dateOfBirth: Date, contactInfo: string): (st: StudentRecord)
    ensures WellFormed(st) && st.id == id && st.enrolled == []
    ensures forall c :: c !in st.grades && c !in st.attendance
  {
    StudentRecord(id, name, dateOfBirth, contactInfo, [], map[], map[])
  }

  /** What an operation reports on the output stream, without its wording. */
  datatype Status =
    | StudentAdded(studentId: int)
    | CourseAdded(courseId: int)
    | Enrolled
    | AlreadyEnrolled
    | StudentNotFound
    | AttendanceRecorded
    | GradeAdded
    | NotFoundOrNotEnrolled
}
