# Student registry — a verified Dafny model

This project models the in-memory student registry `StudentManagementSystem`
together with its record classes `Student` and `Course`. The registry hands out
student and course ids from two counters that start at 1. It keeps students and
courses in two append-only lists. Each student has two dictionaries keyed by
course id: a list of grades and a list of attendance flags per course.
Enrolment creates both entries together. Attendance and grades are then
appended to them. A report card gives, per enrolled course, the mean grade and
the attended/total session counts.

The model has two layers:

- `Registry` and `ReportCards` describe the registry as a value. `State` holds
  the two lists and the two counters. Each operation is a function from state
  to state, with a separate function for the status it reports. `Command` and
  `Run` describe a sequence of calls. The lemmas state what the program
  promises: ids follow creation order, every student has the same keys in both
  dictionaries, state only grows, enrolment is idempotent, recording
  attendance or a grade appends to exactly one list, and so on.
- `Management` is the program's own shape. `Student` is a class whose
  dictionaries are fields updated in place. `StudentManagementSystem` is a
  class with the two lists and two counters. Each method is proved to change
  the object's state exactly as the matching `Registry` function changes its
  value. Enrolment, attendance and grade recording return the status the
  matching `Registry` status function gives; `AddStudent` and `AddCourse`
  have no such function, and their contract states the status directly as
  the counter's old value. `View()` turns the
  object into that value, so every lemma proved on values also holds of the
  object.

`Records` holds the shared value types, and `Scenario` replays the program's
demonstration run (`Main`) and proves the report cards it prints.

In the code `AddStudent` and `AddCourse` are `void` and only print the id
they assigned (Program.cs:47, 132); the model returns it inside the status
(`StudentAdded(id)`, `CourseAdded(id)`).
`AddGrade` checks the *grades* dictionary, while `EnrollStudentInCourse` and
`RecordAttendance` check the *attendance* dictionary. The model keeps that
difference, and `Registry.GuardsAgree` proves it does not matter in any
reachable state.

## Model

| member | source | states |
|---|---|---|
| Records.NewStudent | Program.cs:11-20 | a new student has the given id, no course key in either dictionary and an empty enrolment order, and so satisfies the key-set invariant |
| Registry.Init | Program.cs:37-40 | a new registry has no students and no courses, and both counters at 1, which satisfies the registry invariant |
| Registry.FindStudent | Program.cs:53 | the scan returns the position of the FIRST student with the id (every earlier one has a different id), or nothing when no student has it |
| Registry.FindStudentIsFirstMatch | Program.cs:53 | any position whose student has the id, with no earlier match, is the one the scan returns |
| Registry.FindStudentInValid | Program.cs:39-45 | in a reachable state the student with id k sits at position k-1, and every id outside 1..N is unknown |
| Registry.StudentIdsDistinct | Program.cs:39-46 | student ids are pairwise distinct, positive and below the counter |
| Registry.AddStudentSpec | Program.cs:43-46 | AddStudent gives the new student the counter's value, which no existing student has; it appends the student last, built from the given name, date of birth and contact with no enrolment, and keeps every earlier student exactly as it was; it raises the counter by one; courses are unchanged, lookups of every other id are unchanged, and the invariant and growth hold |
| Registry.AddCourseSpec | Program.cs:128-131 | AddCourse appends a course whose id is the counter's value and differs from every existing course id; it raises the counter by one, leaves students untouched and keeps the invariant |
| Registry.EnrolInWellFormed | Program.cs:56-59 | adding a course not yet in the attendance dictionary creates both dictionary entries together and keeps the key-set invariant and the enrolment order duplicate-free |
| Registry.EnrollPreservesValid | Program.cs:51-71 | enrolment keeps the registry invariant and only grows the state |
| Registry.EnrollOutcome | Program.cs:56-61 | enrolment changes the state if and only if it reports Enrolled; then the course was absent, both lists for it are empty, and it is last in the enrolment order |
| Registry.EnrollIdempotent | Program.cs:56-65 | enrolling twice equals enrolling once, and the second call never reports Enrolled |
| Registry.EnrollFrame | Program.cs:51-71 | enrolment leaves every other student, every existing grade and attendance list, the course list and both counters unchanged |
| Registry.EnrollIgnoresCourseList | Program.cs:51-61 | enrolment's effect and status do not depend on which courses exist |
| Registry.EnrollAcceptsAnyCourseId | Program.cs:53-59 | a known student not yet enrolled in any integer course id gets enrolled (both keys created), whether or not such a course exists |
| Registry.EnrollUnknownStudent | Program.cs:67-70 | an unknown student id leaves the state unchanged and is reported as not found |
| Registry.RecordAttendanceFrame | Program.cs:74-86 | the state changes if and only if attendance is reported recorded; then the flag is appended to exactly that course's attendance list; every other list, key set, student, the courses and the counters stay as they were |
| Registry.RecordAttendancePreservesValid | Program.cs:76-79 | recording attendance keeps the invariant and only grows the state |
| Registry.AddGradeFrame | Program.cs:89-101 | the state changes if and only if the grade is reported added; then the grade is appended to exactly that course's grade list; every other list, key set, student, the courses and the counters stay as they were |
| Registry.AddGradePreservesValid | Program.cs:91-94 | adding a grade keeps the invariant and only grows the state |
| Registry.GuardsAgree | Program.cs:77-92 | in a reachable state, attendance is recorded for exactly the (student, course) pairs for which a grade is added |
| Registry.StepIgnoresDateAndLabel | Program.cs:74-94 | the attendance date and the assessment label do not affect the state |
| Registry.StepPreservesValid | Program.cs:43-133 | each mutating operation keeps the invariant and only grows the state |
| Registry.RunPreservesValid | Program.cs:35-134 | after any sequence of calls the invariant holds, and nothing was removed or shortened: students and courses were only added, counters only rose, enrolments and lists were only extended |
| Registry.ReachableIdsFollowCreationOrder | Program.cs:39-46 | from a new registry, after any calls, the k-th student and the k-th course have id k, and each counter is one more than its list's length |
| ReportCards.Mean | Program.cs:114 | the average of no grades is 0 |
| ReportCards.CountTrue | Program.cs:115-116 | the attended count never exceeds the total, and equals it exactly when every session was attended |
| ReportCards.Line | Program.cs:112-118 | a course line carries its course id, a total equal to the attendance list's length, an attended count not above it, and average 0 when there are no grades |
| ReportCards.Lines | Program.cs:110-119 | one line per listed course, in the listed order |
| ReportCards.ReportCard | Program.cs:104-125 | an unknown student gets only a not-found report; a known one gets its id and name and exactly one line per enrolled course in enrolment order, each with attended the number of sessions marked present, total the number of sessions, and the mean of its grades |
| ReportCards.MeanBounds | Program.cs:114 | the mean of a non-empty grade list lies between any lower and upper bound of its grades |
| ReportCards.SumAppend | Program.cs:94 | appending a grade adds it to the sum |
| ReportCards.MeanAppend | Program.cs:94-114 | after a grade is appended the mean is (old sum + grade) / (old count + 1) |
| ReportCards.CountTrueAppend | Program.cs:79-116 | appending a flag adds one to the attended count exactly when it is true |
| ReportCards.ReportUnknownStudent | Program.cs:121-124 | an id outside 1..N yields a not-found report and no course line |
| ReportCards.LinesAfterEnrol | Program.cs:58-59 | a new enrolment adds one line, last, with average 0 and 0 of 0 sessions; the other lines are unchanged |
| ReportCards.LinesAfterAttendance | Program.cs:79 | recording attendance changes only that course's line: total + 1 and attended + the flag |
| ReportCards.LinesAfterGrade | Program.cs:94 | adding a grade changes only that course's line: its average becomes the mean with the grade appended |
| ReportCards.ReportAfterEnroll | Program.cs:56-59 | after a successful enrolment the report gains one final line (course, 0, 0 of 0) and keeps the others |
| ReportCards.ReportAfterAttendance | Program.cs:77-79 | after attendance is recorded, the report changes in that course's line only, as above |
| ReportCards.ReportAfterGrade | Program.cs:92-94 | after a grade is added, the report changes in that course's line only; its average becomes (sum + grade) / (count + 1) |
| Management.Student.constructor | Program.cs:14-20 | a new student object holds the given identity and empty dictionaries |
| Management.StudentManagementSystem.constructor | Program.cs:37-40 | a new registry object is valid and equals the initial state |
| Management.StudentManagementSystem.Find | Program.cs:53 | the loop returns the position the first-match scan defines |
| Management.StudentManagementSystem.AddStudent | Program.cs:43-48 | the object changes as Registry.AddStudent says; the status carries the counter's old value; the new student object is fresh and earlier objects keep their places |
| Management.StudentManagementSystem.AddCourse | Program.cs:128-133 | the object changes as Registry.AddCourse says; the status carries the counter's old value; the student list is untouched |
| Management.StudentManagementSystem.EnrollStudentInCourse | Program.cs:51-71 | only student objects are modified, as Registry.Enroll says; the status is Registry.EnrollStatus; the invariant is kept |
| Management.StudentManagementSystem.RecordAttendance | Program.cs:74-86 | only student objects are modified, as Registry.RecordAttendance says; the status is Registry.RecordAttendanceStatus; the invariant is kept |
| Management.StudentManagementSystem.AddGrade | Program.cs:89-101 | only student objects are modified, as Registry.AddGrade says; the status is Registry.AddGradeStatus; the invariant is kept |
| Management.StudentManagementSystem.GenerateReportCard | Program.cs:104-125 | modifies nothing; the loop over the enrolment order returns the report card ReportCards.ReportCard defines for the current state |
| Scenario.DemoFinalState | Program.cs:141-164 | the demonstration's calls lead to the state with Alice enrolled in courses 1 and 2 and Bob in course 1, with the lists recorded |
| Scenario.AliceReport | Program.cs:167 | Alice's card: course 1 average 90.25 with 1 of 2 sessions; course 2 average 0 with 0 of 0 |
| Scenario.BobReport | Program.cs:168 | Bob's card: course 1 average 75 with 1 of 1 session |
| Scenario.DemoReportCards | Program.cs:139-169 | whatever the two attendance dates, the demonstration ends in a valid state whose report cards for ids 1 and 2 are the two above; beyond the demonstration, which never asks for it, an id no student has (999) gets a not-found report |

The transition functions `Registry.AddStudent`, `Registry.AddCourse`,
`Registry.EnrolIn`, `Registry.Enroll`, `Registry.EnrollStatus`,
`Registry.RecordAttendance`, `Registry.RecordAttendanceStatus`,
`Registry.AddGrade` and `Registry.AddGradeStatus` model Program.cs:43-133 on
values. They carry no contract of their own. Their properties are the lemmas
above: `AddStudentSpec`, `AddCourseSpec`, the `Enroll…` lemmas, the
`RecordAttendance…` and `AddGrade…` lemmas, and `GuardsAgree`.

## Left out

- Console output: the wording of each message and its formatting are not modelled. This covers `ToShortDateString`, the `:F2` rounding of the average, and the "Present"/"Absent" words. Each operation returns a `Status` value instead, and the report card is a `Report` value.
- `DateTime`: a date is a plain year/month/day triple that is never compared, and the time of day is dropped. A student's date of birth is stored and never used. An attendance date is never stored. `DateTime.Now` in the demonstration becomes a lemma parameter.
- Floating point: grades are `real`, and the mean is the exact sum divided by the count. `double` rounding, NaN and infinities are not modelled.
- Management.StudentManagementSystem.AddStudent: the id counter is an unbounded integer. The source's 32-bit `int` would wrap past 2147483647, but the student list cannot hold that many entries.
- Management.StudentManagementSystem.AddCourse: the id counter is an unbounded integer, for the same reason.
- Dictionary key order: `Student.enrolled` records the order in which course ids were inserted, and the report follows it. This is the order in which a .NET `Dictionary` with no removals enumerates its keys.
- Aliasing from outside: `Student.Grades` and `Student.Attendance` are public getters, so other code could change the dictionaries directly. The model assumes only the registry changes them. The invariant (both dictionaries have the same keys, and no student object appears twice) depends on that.
- `GenerateReportCard` throws `KeyNotFoundException` if a grades key has no attendance entry. That cannot happen in a reachable state, so `ReportCards.ReportCard` requires the registry invariant.
- `Main` is not an operation. The `Scenario` lemmas replay its calls on the value model.
- `null` names and contact strings do not exist in the model; strings are values.
