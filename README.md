# University enrollment and academic records, in Dafny

This project models the enrollment and academic-record rules of a small
university system:

- A **course** has a capacity and a roster. The capacity defaults to 30.
  Its prerequisite set is built from a list, so duplicates collapse.
  `AddStudent` appends to the roster only while a seat is free and reports the
  result as a boolean. `RemoveStudent` deletes the first occurrence of a
  student and does nothing for a non-member. A **department** files courses by
  identifier, overwriting on a repeated identifier, and keeps an append-only
  faculty list. Both are classes whose methods update their fields in place
  (`department.dfy`, module `Departments`).
- A **student** keeps a ledger that maps a course identifier to an optional
  grade. `EnrollCourse` first checks the prerequisites against the ledger's
  keys: presence is enough, whatever the grade, even none. It then asks the
  course for a seat. Only when both succeed does it file the course with no
  grade. Enrolling again in a course already in the ledger goes through both
  checks again. It passes the prerequisite check only while every
  prerequisite is still a ledger key. When a seat is also free, it adds a
  second roster entry and clears the grade. When the course is full, it
  reports `CourseFull`, and the grade and the roster stay as they were.
  `DropCourse` removes
  the key and asks the course to remove the student, whether or not the
  student is on the roster (`student.dfy`, module `Students`).
- The **GPA** is the mean grade point (A=4 … F=0) over ledger entries whose
  grade is one of the five letters. Each counted course weighs a fixed 3
  credits, so the course's declared credits play no part. The mean is rounded
  to hundredths, or is 0.00 when nothing is graded. Academic standing
  recomputes the GPA and classifies it at 3.50 and 2.00 (`grading.dfy`, module
  `Grading`, and the imperative `Student.CalculateGpa` loop).
- The **validated record** (`SecureStudentRecord`) wraps one student by
  reference. It holds its own GPA, which every write keeps within 0.0 to 4.0;
  an out-of-range write raises and keeps the old value. It also has an
  enrollment ceiling of 5, checked against the wrapped student's ledger.
- A **person** has an age rule, the year difference less one before this
  year's birthday, and responsibility lists that the staff and student
  variants extend by exactly one entry (`person.dfy`, module `People`).

GPAs are exact integers in hundredths (0 to 400). `RoundHalfEven` is specified
by what it means, not by how it computes: the nearest integer to `x / d`, with
ties going to the even one. A lemma shows this condition has a single
solution. A second lemma shows that scaling numerator and denominator leaves
the result unchanged. That is why the loop's weight of 3 cancels, and why the
stored GPA equals the rounded mean grade point (`GpaOf`).

Six methods at the end of `student.dfy` work through scenarios using the
contracts alone. Three of them replay the repository's tests:
- `PrerequisiteWorkflow` follows `test_code/test_main.py:65-91`. CS201 is refused, CS101 is enrolled, then CS201 is accepted. The test grades CS101 before the last step. The scenario leaves it ungraded on purpose, to show that presence in the ledger alone meets a prerequisite.
- `FreedSeatWorkflow` follows `test_code/test_main.py:241-262`.
- `SecureRecordWorkflow` follows `test_code/test_main.py:142-163` and `:222-239`.

`ReenrollmentWorkflow`, `FullCourseReenrollmentWorkflow` and
`DroppedPrerequisiteWorkflow` cover re-enrollment, which no test exercises.
A second enrollment with a free seat clears the grade. With the course full,
or with a prerequisite dropped in the meantime, it is refused and nothing
changes.

Code and tests disagree in one place. `test_code/test_person.py:39-41` expects
age 34 for a birth date of 1990-03-15 on 2024-01-01. The rule at
`person.py:55` gives 33, because the birthday is still ahead. The model
follows the code (`People.AgeExamples`).

## Model

| member | source | states |
|---|---|---|
| `People.Person.Age` | question1_university_system/person.py:55 | the age is the number of anniversaries of the birth date on or before today: the `age`-th anniversary has passed and the next one has not |
| `People.AgeUnique` | question1_university_system/person.py:55 | any whole number whose anniversary has passed while the next has not equals the age, so the anniversary rule determines it |
| `People.AgeOnOrAfterBirthday` | question1_university_system/person.py:55 | on the birthday and any later day of the year the age is the plain year difference (the comparison is strict) |
| `People.AgeBeforeBirthday` | question1_university_system/person.py:55 | before this year's birthday the age is the year difference minus one |
| `People.AgeExamples` | question1_university_system/person.py:55 | on 2024-01-01 birthdays of 1990-03-15 and 1990-06-15 give 33, and 1990-01-01 gives 34 |
| `People.Person.Responsibilities` | question1_university_system/person.py:67 | the base list is exactly the one policy duty |
| `People.Person.ToString` | question1_university_system/person.py:76 | the display form is the name, then " (ID: ", then the identifier, then ")"; both parts can be read back at known positions |
| `People.Staff.Responsibilities` | question1_university_system/person.py:117-120 | the base list is kept as a prefix and exactly one entry follows, naming the role and the department |
| `Departments.PrerequisiteSet` | question1_university_system/department.py:49 | an identifier is a prerequisite exactly when it occurs in the given list |
| `Departments.PrerequisiteSetSize` | question1_university_system/department.py:49 | the prerequisite set never has more members than the list has entries, and has as many exactly when the list has no duplicates |
| `Departments.DuplicatePrerequisitesCollapse` | question1_university_system/department.py:49 | the list CS101, CS201, CS101 gives the two-element set {CS101, CS201} |
| `Departments.Admit` | question1_university_system/department.py:69-72 | an add either leaves the roster alone or appends exactly the student at the end; it appends iff the roster is below capacity, so a roster within capacity stays within it |
| `Departments.RemoveFirst` | question1_university_system/department.py:85-86 | removal leaves a roster without the student unchanged; otherwise it shortens the roster by one and takes exactly one copy of the student out of its multiset |
| `Departments.RemoveFirstSkips` | question1_university_system/department.py:85-86 | entries before the student's first occurrence are passed over and kept in front of the result |
| `Departments.RemoveFirstAt` | question1_university_system/department.py:85-86 | the entry removed is the first occurrence, and the other entries keep their order |
| `Departments.ReplayWithinLimit` | question1_university_system/department.py:69-86 | from a roster within capacity, any sequence of add and remove requests keeps the roster within capacity |
| `Departments.FreedSeatAdmits` | question1_university_system/department.py:69-86 | in a full course an add is rejected; after a member is removed the same add succeeds and appends the newcomer |
| `Departments.Course.constructor` | question1_university_system/department.py:31-52 | a new course has an empty roster, the given capacity (30 when omitted), and the prerequisite set of the given list (empty when omitted) |
| `Departments.Course.AddStudent` | question1_university_system/department.py:69-72 | returns true iff the roster was below capacity; the new roster is the old one with the student appended in that case and unchanged otherwise; the capacity invariant is kept |
| `Departments.Course.RemoveStudent` | question1_university_system/department.py:85-86 | the new roster is the old one with the first occurrence of the student removed, unchanged for a non-member |
| `Departments.Department.constructor` | question1_university_system/department.py:119-123 | a new department has the given name, an empty catalog and no faculty |
| `Departments.Department.AddCourse` | question1_university_system/department.py:135 | the catalog maps the course's identifier to the course, replacing any earlier one; other identifiers and their courses are unchanged; every entry stays filed under its own identifier |
| `Departments.Department.AddFaculty` | question1_university_system/department.py:147 | the faculty list grows by one at the end and keeps the earlier members in order |
| `Grading.Counted` | question1_university_system/student.py:110 | a grade counts exactly when it is present and one of the five letters; the separate non-empty test adds nothing |
| `Grading.PointsOf` | question1_university_system/student.py:106-111 | a counted grade contributes its table value (A=4 … F=0), an uncounted one nothing, so never more than 4 points |
| `Grading.CountOf` | question1_university_system/student.py:110-112 | each entry adds one to the credit count exactly when its grade counts, and nothing otherwise |
| `Grading.SumOverRemove` | question1_university_system/student.py:109-112 | summing over the ledger may take out any entry first, so the loop's iteration order does not affect the totals |
| `Grading.PointsAtMostFourEach` | question1_university_system/student.py:106-112 | the total grade points are at most four times the number of counted grades |
| `Grading.UncountedGradeIgnored` | question1_university_system/student.py:110 | adding an entry with no grade or a grade outside the letter table leaves the GPA unchanged |
| `Grading.RoundHalfEven` | question1_university_system/student.py:120 | the result is an integer nearest to `x / d` (within half of `d` once scaled), and even on an exact tie |
| `Grading.RoundHalfEvenUnique` | question1_university_system/student.py:120 | only one integer meets the nearest, ties-to-even condition |
| `Grading.RoundHalfEvenScale` | question1_university_system/student.py:111-120 | multiplying points and credits by the same weight does not change the rounded mean, so the fixed credit weight cancels |
| `Grading.RoundHalfEvenAtMost` | question1_university_system/student.py:120 | rounding a quotient at most `bound` gives at most `bound` |
| `Grading.GpaOf` | question1_university_system/student.py:102-121 | the reference GPA of a ledger: 0.00 when no grade counts, and never above 4.00 |
| `Grading.GpaIsRoundedMean` | question1_university_system/student.py:102-121 | with no counted grade the GPA is 0.00; otherwise it is the mean grade point rounded to the nearest hundredth |
| `Grading.GpaExampleMixed` | question1_university_system/student.py:102-121 | the ledger {A, B, C} has GPA 3.00 |
| `Grading.GpaExampleRounded` | question1_university_system/student.py:102-121 | the ledger {A, A, B} has GPA 3.67, the mean 11/3 rounded to hundredths |
| `Grading.GpaExampleFailing` | question1_university_system/student.py:102-121 | the ledger {D, F} has GPA 0.50: the F counts with zero points |
| `Grading.GpaExampleUngraded` | question1_university_system/student.py:114-116 | a ledger with only an ungraded course, and an empty ledger, have GPA 0.00 |
| `Grading.Standing.Label` | question1_university_system/student.py:136-141 | each standing is reported under its own string ("Dean's List", "Good Standing", "Probation"), and each string names exactly one standing |
| `Grading.StandingOf` | question1_university_system/student.py:136-141 | Dean's List iff the GPA is at least 3.50, Good Standing iff it is at least 2.00 and below 3.50, Probation iff it is below 2.00; the reported string follows the same thresholds |
| `Grading.StandingMonotone` | question1_university_system/student.py:136-141 | a higher GPA never gives a worse standing |
| `Grading.StandingExamples` | question1_university_system/student.py:134-141 | a single A gives Dean's List, a single C Good Standing and a single F Probation; 3.50, 2.00, 1.99 and 0.00 fall as the thresholds say |
| `Students.Student.constructor` | question1_university_system/student.py:43-46 | a new student has an empty ledger and a GPA of 0.00 |
| `Students.Student.EnrollCourse` | question1_university_system/student.py:60-73 | with a prerequisite missing from the ledger's keys it reports exactly the missing set and changes neither ledger nor roster; otherwise the roster gets the seat-limited add, and the ledger gains the course with no grade iff a seat was free (Enrolled), else it is unchanged (CourseFull) |
| `Students.Student.DropCourse` | question1_university_system/student.py:85-89 | for a course in the ledger the roster loses the student's first occurrence (if any) and the ledger loses exactly that key; otherwise nothing changes |
| `Students.Student.CalculateGpa` | question1_university_system/student.py:102-121 | the returned and stored GPA equal the rounded mean grade point of the ledger, whatever the iteration order, and lie within 0.00 to 4.00 |
| `Students.Student.GetAcademicStatus` | question1_university_system/student.py:134-141 | the GPA is recomputed from the ledger first, and the standing is the one its thresholds give |
| `Students.Student.Responsibilities` | question1_university_system/student.py:151-154 | the base list is kept as a prefix and exactly the study duty follows |
| `Students.PrerequisitesIgnoreGrades` | question1_university_system/student.py:60-63 | regrading a course already in the ledger (to any grade, or none) changes neither the prerequisite check nor the missing set |
| `Students.SecureStudentRecord.constructor` | question1_university_system/student.py:233-236 | before the initial value is applied the record wraps the given student with the safe GPA 0.0 and the ceiling 5 |
| `Students.SecureStudentRecord.Create` | question1_university_system/student.py:233-236 | the initial GPA goes through the validated setter: a record is created iff it lies within 0.0 to 4.0, and otherwise the out-of-range error is raised |
| `Students.SecureStudentRecord.GetGpa` | question1_university_system/student.py:245 | returns the stored GPA, which always lies within 0.0 to 4.0 |
| `Students.SecureStudentRecord.SetGpa` | question1_university_system/student.py:259-262 | the write succeeds iff the value lies within 0.0 to 4.0 and then stores it; otherwise it raises the out-of-range error and the stored value is unchanged |
| `Students.SecureStudentRecord.CanEnrollMore` | question1_university_system/student.py:273 | true exactly while the wrapped student's ledger has fewer than 5 keys |
| `Students.SecureStudentRecord.GetStudentName` | question1_university_system/student.py:282 | the name of the student the record wraps, read through the reference |

## Left out

- The messages printed by `enroll_course` and `drop_course` (student.py:64, :71, :73, :90) are not modelled. `EnrollCourse` returns an `Enrollment` value in their place: `Enrolled`, `CourseFull` or `MissingPrerequisites(missing)`.
- The `department` parameter of `enroll_course` is unused by the source and is omitted.
- `get_age` reads the clock (`datetime.date.today()`) and parses the birth date with `strptime`. Here today is a parameter and the birth date is already a `Date`. Malformed date strings, which would raise in the parser, are not modelled.
- `Grading.RoundHalfEven` rounds the exact rational value. The source rounds a binary float. The two agree except on non-dyadic exact ties. Dyadic ties such as 0.125 round to even in both. A non-dyadic tie depends on the float's representation and is not modelled: one D among 40 graded courses gives 0.02 here, while the source divides 3.0 by 120.0, whose float result lies just above 0.025, and rounds it to 0.03.
- `Students.SecureStudentRecord.SetGpa` takes a `real`. Floating-point values, including NaN (which the source rejects because every comparison with it is false), are not modelled.
- `Departments.Course.constructor` takes the capacity as a natural number. A negative limit, which the source accepts and which then refuses every add, is not modelled.
- Prerequisites are given as a sequence. The source also accepts a set, or `None`; both give the same prerequisite set as the corresponding sequence or the empty one.
- Grades are strings or absent. The source would accept any value as a grade. Hashable values that are not letter-grade strings are excluded from the GPA in both. A non-empty unhashable grade, such as a non-empty list, makes the table lookup at student.py:110 raise `TypeError`; that error path is not modelled.
- `UndergraduateStudent` and `GraduateStudent` only store a year level or an advisor. Both appear as the `program` field of `Student`.
- `Course.__str__` (department.py:95) only formats numbers as text and is not modelled.
- `faculty.py` (constant workload strings and stored rank or tenure), `main.py` (a printing demonstration) and `run_tests.py` (test discovery and process exit) are not part of this model.
- Person identifiers, names, birth dates, majors, course names and credits are stored as fields. Only `Person.Age`, `Person.ToString` and `SecureStudentRecord.GetStudentName` read any of them; enrollment, the GPA and academic standing never do.
