/**
  The registry as the program holds it: a `StudentManagementSystem` object that
  owns a list of `Student` objects and a list of courses and two counters, and
  whose methods change that state in place. Each method is proved to have
  exactly the effect, and to report exactly the status, that the value-level
  functions of `Registry` describe, so every property proved there holds of
  the object too.
 */
module Management {
  import opened Records
  import Registry
  import opened ReportCards

  /** A student. Its identity fields never change; its two dictionaries (and
      their key order) are updated in place by the registry. */
  class Student {
    const id: int
    const name: string
    const dateOfBirth: Date
    const contactInfo: string
    var enrolled: seq<int>
    var grades: map<int, seq<real>>
    var attendance: map<int, seq<bool>>

    constructor (id: int, name: string, dateOfBirth: Date, contactInfo: string)
      ensures Record() == NewStudent(id, name, dateOfBirth, contactInfo)
    {
      this.id := id;
      this.name := name;
      this.dateOfBirth := dateOfBirth;
      this.contactInfo := contactInfo;
      enrolled := [];
      grades := map[];
      attendance := map[];
    }

    /** The current value of this student. */
    function Record(): StudentRecord
      reads this
    {
      StudentRecord(id, name, dateOfBirth, contactInfo, enrolled, grades, attendance)
    }
  }

  class StudentManagementSystem {
    var students: seq<Student>
    var courses: seq<Course>
    var studentIdCounter: int
    var courseIdCounter: int

    /** The registry's state as a value. */
    function View(): Registry.State
      reads this, students
    {
      Registry.State(
        seq(|students|, i requires 0 <= i < |students| reads this, students => students[i].Record()),
        courses, studentIdCounter, courseIdCounter)
    }

    /** No student object is shared between two places of the list, and the
        state satisfies the registry invariant. */
    ghost predicate Valid()
      reads this, students
    {
      && (forall i, j :: 0 <= i < j < |students| ==> students[i] != students[j])
      && Registry.Valid(View())
    }

    constructor ()
      ensures Valid() && View() == Registry.Init()
    {
      students := [];
      courses := [];
      studentIdCounter := 1;
      courseIdCounter := 1;
    }

    /** The first student in the list whose id matches, by position. */
    method Find(studentId: int) returns (found: Option<nat>)
      ensures found == Registry.FindStudent(View().students, studentId)
    {
      var i := 0;
      while i < |students|
        invariant 0 <= i <= |students|
        invariant forall j :: 0 <= j < i ==> students[j].id != studentId
      {
        if students[i].id == studentId {
          Registry.FindStudentIsFirstMatch(View().students, studentId, i);
          return Some(i);
        }
        i := i + 1;
      }
      found := None;
    }

    method AddStudent(name: string, dateOfBirth: Date, contactInfo: string) returns (status: Status)
      requires Valid()
      modifies this
      ensures Valid()
      ensures View() == Registry.AddStudent(old(View()), name, dateOfBirth, contactInfo)
      ensures status == StudentAdded(old(studentIdCounter))
      ensures |students| == |old(students)| + 1 && students[..|old(students)|] == old(students)
      ensures fresh(students[|old(students)|])
    {
      var student := new Student(studentIdCounter, name, dateOfBirth, contactInfo);
      studentIdCounter := studentIdCounter + 1;
      students := students + [student];
      status := StudentAdded(student.id);
      assert View().students == old(View()).students + [student.Record()];
    }

    method AddCourse(courseName: string) returns (status: Status)
      requires Valid()
      modifies this
      ensures Valid()
      ensures View() == Registry.AddCourse(old(View()), courseName)
      ensures status == CourseAdded(old(courseIdCounter))
      ensures students == old(students)
    {
      var course := Course(courseIdCounter, courseName);
      courseIdCounter := courseIdCounter + 1;
      courses := courses + [course];
      status := CourseAdded(course.id);
      assert View().students == old(View()).students;
    }

    method EnrollStudentInCourse(studentId: int, courseId: int) returns (status: Status)
      requires Valid()
      modifies students
      ensures Valid()
      ensures View() == Registry.Enroll(old(View()), studentId, courseId)
      ensures status == Registry.EnrollStatus(old(View()), studentId, courseId)
    {
      ghost var before := View();
      var found := Find(studentId);
      match found
      case None =>
        status := StudentNotFound;
      case Some(i) =>
        var student := students[i];
        if courseId !in student.attendance {
          student.attendance := student.attendance[courseId := []];
          student.grades := student.grades[courseId := []];
          student.enrolled := student.enrolled + [courseId];
          status := Enrolled;
          assert View().students == before.students[i := Registry.EnrolIn(before.students[i], courseId)];
          Registry.EnrollPreservesValid(before, studentId, courseId);
        } else {
          status := AlreadyEnrolled;
        }
    }

    method RecordAttendance(studentId: int, courseId: int, date: Date, isPresent: bool) returns (status: Status)
      requires Valid()
      modifies students
      ensures Valid()
      ensures View() == Registry.RecordAttendance(old(View()), studentId, courseId, isPresent)
      ensures status == Registry.RecordAttendanceStatus(old(View()), studentId, courseId)
    {
      ghost var before := View();
      var found := Find(studentId);
      if found.Some? && courseId in students[found.value].attendance {
        var student := students[found.value];
        student.attendance := student.attendance[courseId := student.attendance[courseId] + [isPresent]];
        status := AttendanceRecorded;
        assert View() == Registry.RecordAttendance(before, studentId, courseId, isPresent);
        Registry.RecordAttendancePreservesValid(before, studentId, courseId, isPresent);
      } else {
        status := NotFoundOrNotEnrolled;
      }
    }

    method AddGrade(studentId: int, courseId: int, assessment: string, grade: real) returns (status: Status)
      requires Valid()
      modifies students
      ensures Valid()
      ensures View() == Registry.AddGrade(old(View()), studentId, courseId, grade)
      ensures status == Registry.AddGradeStatus(old(View()), studentId, courseId)
    {
      ghost var before := View();
      var found := Find(studentId);
      if found.Some? && courseId in students[found.value].grades {
        var student := students[found.value];
        student.grades := student.grades[courseId := student.grades[courseId] + [grade]];
        status := GradeAdded;
        assert View() == Registry.AddGrade(before, studentId, courseId, grade);
        Registry.AddGradePreservesValid(before, studentId, courseId, grade);
      } else {
        status := NotFoundOrNotEnrolled;
      }
    }

    /** Builds the report card, one line per course in the order the grade
        dictionary holds its keys; changes nothing. */
    method GenerateReportCard(studentId: int) returns (report: Report)
      requires Valid()
      ensures report == ReportCard(View(), studentId)
    {
      var found := Find(studentId);
      match found
      case None =>
        report := NotFound(studentId);
      case Some(i) =>
        var student := students[i];
        assert View().students[i] == student.Record();
        var keys := student.enrolled;
        var lines: seq<ReportLine> := [];
        for k := 0 to |keys|
          invariant lines == Lines(student.Record(), keys[..k])
        {
          var courseId := keys[k];
          var grades := student.grades[courseId];
          var attendance := student.attendance[courseId];
          var averageGrade := if |grades| > 0 then Mean(grades) else 0.0;
          var totalClasses := |attendance|;
          var classesAttended := CountTrue(attendance);
          lines := lines + [ReportLine(courseId, averageGrade, classesAttended, totalClasses)];
          assert keys[..k + 1][..k] == keys[..k];
        }
        assert keys[..|keys|] == keys;
        report := Card(student.id, student.name, lines);
    }
  }
}
