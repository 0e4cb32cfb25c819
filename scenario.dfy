/**
  The demonstration run of the program, replayed on the value model: two
  courses, two students, three enrolments, three attendance records, three
  grades, and the resulting report cards.
 */
module Scenario {
  import opened Records
  import opened Registry
  import opened ReportCards

  function SetupCalls(): seq<Command> {
    [ AddCourseCmd("Mathematics"),
      AddCourseCmd("Science"),
      AddStudentCmd("Alice Johnson", Date(2000, 5, 21), "alice.j@example.com"),
      AddStudentCmd("Bob Smith", Date(2001, 8, 10), "bob.s@example.com") ]
  }

  function EnrolmentCalls(): seq<Command> {
    [ EnrollCmd(1, 1), EnrollCmd(1, 2), EnrollCmd(2, 1) ]
  }

  function AttendanceCalls(today: Date, yesterday: Date): seq<Command> {
    [ RecordAttendanceCmd(1, 1, today, true),
      RecordAttendanceCmd(1, 1, yesterday, false),
      RecordAttendanceCmd(2, 1, today, true) ]
  }

  function GradeCalls(): seq<Command> {
    [ AddGradeCmd(1, 1, "Midterm", 88.5),
      AddGradeCmd(1, 1, "Final", 92.0),
      AddGradeCmd(2, 1, "Midterm", 75.0) ]
  }

  /** The calls of the demonstration, with the two attendance dates as
      parameters (the program uses the current date and the day before). */
  function DemoScript(today: Date, yesterday: Date): seq<Command> {
    SetupCalls() + EnrolmentCalls() + AttendanceCalls(today, yesterday) + GradeCalls()
  }

  function Alice(enrolled: seq<int>, grades: map<int, seq<real>>, attendance: map<int, seq<bool>>): StudentRecord {
    StudentRecord(1, "Alice Johnson", Date(2000, 5, 21), "alice.j@example.com", enrolled, grades, attendance)
  }

  function Bob(enrolled: seq<int>, grades: map<int, seq<real>>, attendance: map<int, seq<bool>>): StudentRecord {
    StudentRecord(2, "Bob Smith", Date(2001, 8, 10), "bob.s@example.com", enrolled, grades, attendance)
  }

  function DemoState(alice: StudentRecord, bob: StudentRecord): State {
    State([alice, bob], [Course(1, "Mathematics"), Course(2, "Science")], 3, 3)
  }

  // The states after each call of the demonstration from the fourth on.
  function After4(): State { DemoState(Alice([], map[], map[]), Bob([], map[], map[])) }
  function After5(): State { DemoState(Alice([1], map[1 := []], map[1 := []]), Bob([], map[], map[])) }
  function After6(): State {
    DemoState(Alice([1, 2], map[1 := [], 2 := []], map[1 := [], 2 := []]), Bob([], map[], map[]))
  }
  function After7(): State {
    DemoState(Alice([1, 2], map[1 := [], 2 := []], map[1 := [], 2 := []]), Bob([1], map[1 := []], map[1 := []]))
  }
  function After8(): State {
    DemoState(Alice([1, 2], map[1 := [], 2 := []], map[1 := [true], 2 := []]), Bob([1], map[1 := []], map[1 := []]))
  }
  function After9(): State {
    DemoState(Alice([1, 2], map[1 := [], 2 := []], map[1 := [true, false], 2 := []]), Bob([1], map[1 := []], map[1 := []]))
  }
  function After10(): State {
    DemoState(Alice([1, 2], map[1 := [], 2 := []], map[1 := [true, false], 2 := []]), Bob([1], map[1 := []], map[1 := [true]]))
  }
  function After11(): State {
    DemoState(Alice([1, 2], map[1 := [88.5], 2 := []], map[1 := [true, false], 2 := []]), Bob([1], map[1 := []], map[1 := [true]]))
  }
  function After12(): State {
    DemoState(Alice([1, 2], map[1 := [88.5, 92.0], 2 := []], map[1 := [true, false], 2 := []]), Bob([1], map[1 := []], map[1 := [true]]))
  }
  function After13(): State {
    DemoState(Alice([1, 2], map[1 := [88.5, 92.0], 2 := []], map[1 := [true, false], 2 := []]), Bob([1], map[1 := [75.0]], map[1 := [true]]))
  }

  lemma DemoLookup(s: State)
    requires |s.students| == 2 && s.students[0].id == 1 && s.students[1].id == 2
    ensures FindStudent(s.students, 1) == Some(0) && FindStudent(s.students, 2) == Some(1)
  {
    FindStudentIsFirstMatch(s.students, 1, 0);
    FindStudentIsFirstMatch(s.students, 2, 1);
  }

  lemma Run3(s: State, cmds: seq<Command>)
    requires |cmds| == 3
    ensures Run(s, cmds) == Step(Step(Step(s, cmds[0]), cmds[1]), cmds[2])
  {
    var s1 := Step(s, cmds[0]);
    var s2 := Step(s1, cmds[1]);
    var s3 := Step(s2, cmds[2]);
    assert cmds[1..][0] == cmds[1] && cmds[1..][1..] == cmds[2..];
    assert cmds[2..][0] == cmds[2] && cmds[2..][1..] == [];
    assert Run(s, cmds) == Run(s1, cmds[1..]);
    assert Run(s1, cmds[1..]) == Run(s2, cmds[2..]);
    assert Run(s2, cmds[2..]) == Run(s3, []);
  }

  lemma SetupPhase()
    ensures Run(Init(), SetupCalls()) == After4()
  {
    var cmds := SetupCalls();
    var s1 := Step(Init(), cmds[0]);
    assert cmds[1..] == [cmds[1], cmds[2], cmds[3]];
    assert Run(Init(), cmds) == Run(s1, cmds[1..]);
    Run3(s1, cmds[1..]);
  }

  lemma EnrolmentPhase()
    ensures Run(After4(), EnrolmentCalls()) == After7()
  {
    Run3(After4(), EnrolmentCalls());
    DemoLookup(After4());
    assert EnrolIn(After4().students[0], 1) == After5().students[0];
    assert Enroll(After4(), 1, 1) == After5();
    DemoLookup(After5());
    assert EnrolIn(After5().students[0], 2) == After6().students[0];
    assert Enroll(After5(), 1, 2) == After6();
    DemoLookup(After6());
    assert EnrolIn(After6().students[1], 1) == After7().students[1];
    assert Enroll(After6(), 2, 1) == After7();
  }

  lemma AttendancePhase(today: Date, yesterday: Date)
    ensures Run(After7(), AttendanceCalls(today, yesterday)) == After10()
  {
    Run3(After7(), AttendanceCalls(today, yesterday));
    assert [] + [true] == [true] && [true] + [false] == [true, false];
    DemoLookup(After7());
    var alice := After7().students[0];
    assert alice.attendance[1 := alice.attendance[1] + [true]] == map[1 := [true], 2 := []];
    assert RecordAttendance(After7(), 1, 1, true) == After8();
    DemoLookup(After8());
    alice := After8().students[0];
    assert alice.attendance[1 := alice.attendance[1] + [false]] == map[1 := [true, false], 2 := []];
    assert RecordAttendance(After8(), 1, 1, false) == After9();
    DemoLookup(After9());
    var bob := After9().students[1];
    assert bob.attendance[1 := bob.attendance[1] + [true]] == map[1 := [true]];
    assert RecordAttendance(After9(), 2, 1, true) == After10();
  }

  lemma GradePhase()
    ensures Run(After10(), GradeCalls()) == After13()
  {
    Run3(After10(), GradeCalls());
    assert [] + [88.5] == [88.5] && [88.5] + [92.0] == [88.5, 92.0] && [] + [75.0] == [75.0];
    DemoLookup(After10());
    var alice := After10().students[0];
    assert alice.grades[1 := alice.grades[1] + [88.5]] == map[1 := [88.5], 2 := []];
    assert AddGrade(After10(), 1, 1, 88.5) == After11();
    DemoLookup(After11());
    alice := After11().students[0];
    assert alice.grades[1 := alice.grades[1] + [92.0]] == map[1 := [88.5, 92.0], 2 := []];
    assert AddGrade(After11(), 1, 1, 92.0) == After12();
    DemoLookup(After12());
    var bob := After12().students[1];
    assert bob.grades[1 := bob.grades[1] + [75.0]] == map[1 := [75.0]];
    assert AddGrade(After12(), 2, 1, 75.0) == After13();
  }

  /** The state at the end of the demonstration. */
  lemma DemoFinalState(today: Date, yesterday: Date)
    ensures Run(Init(), DemoScript(today, yesterday)) == After13()
  {
    var a, b, c, d := SetupCalls(), EnrolmentCalls(), AttendanceCalls(today, yesterday), GradeCalls();
    RunAppend(Init(), a + b + c, d);
    RunAppend(Init(), a + b, c);
    RunAppend(Init(), a, b);
    SetupPhase();
    EnrolmentPhase();
    AttendancePhase(today, yesterday);
    GradePhase();
  }

  lemma DemoFinalValid()
    ensures Valid(After13())
  {
    var today := Date(2024, 1, 2);
    RunPreservesValid(Init(), DemoScript(today, Date(2024, 1, 1)));
    DemoFinalState(today, Date(2024, 1, 1));
  }

  /** Alice averages 90.25 in Mathematics with one of two sessions attended
      and has nothing yet in Science. */
  lemma AliceReport()
    ensures Valid(After13())
    ensures ReportCard(After13(), 1) == Card(1, "Alice Johnson", [ReportLine(1, 90.25, 1, 2), ReportLine(2, 0.0, 0, 0)])
  {
    DemoFinalValid();
    DemoLookup(After13());
    var st := After13().students[0];
    assert [88.5, 92.0][..1] == [88.5] && [88.5][..0] == [];
    assert Mean([88.5, 92.0]) == 90.25;
    assert [true, false][..1] == [true] && [true][..0] == [];
    assert CountTrue([true, false]) == 1;
    assert Line(st, 1) == ReportLine(1, 90.25, 1, 2);
    assert Line(st, 2) == ReportLine(2, 0.0, 0, 0);
    assert ReportCard(After13(), 1).lines == [Line(st, 1), Line(st, 2)];
  }

  /** Bob averages 75 in Mathematics with one of one session attended. */
  lemma BobReport()
    ensures Valid(After13())
    ensures ReportCard(After13(), 2) == Card(2, "Bob Smith", [ReportLine(1, 75.0, 1, 1)])
  {
    DemoFinalValid();
    DemoLookup(After13());
    var st := After13().students[1];
    assert [75.0][..0] == [] && [true][..0] == [];
    assert Line(st, 1) == ReportLine(1, 75.0, 1, 1);
    assert ReportCard(After13(), 2).lines == [Line(st, 1)];
  }

  /** The report cards at the end of the demonstration; an unknown id gets
      no course line. */
  lemma DemoReportCards(today: Date, yesterday: Date)
    ensures Valid(Run(Init(), DemoScript(today, yesterday)))
    ensures var s := Run(Init(), DemoScript(today, yesterday));
      && ReportCard(s, 1) == Card(1, "Alice Johnson", [ReportLine(1, 90.25, 1, 2), ReportLine(2, 0.0, 0, 0)])
      && ReportCard(s, 2) == Card(2, "Bob Smith", [ReportLine(1, 75.0, 1, 1)])
      && ReportCard(s, 999) == NotFound(999)
  {
    DemoFinalState(today, yesterday);
    AliceReport();
    BobReport();
    ReportUnknownStudent(After13(), 999);
  }
}
