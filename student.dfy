/**
 * Students: the student record with its enrollment ledger, the enrollment and
 * drop workflow against a course, GPA and standing, and the validated record
 * view with its own GPA and enrollment ceiling.
 */
module Students {
  import opened Common
  import opened People
  import opened Departments
  import opened Grading

  /** The most courses a validated record allows. */
  const MaxCourses: nat := 5

  /** The duty a student adds to the base responsibility list. */
  const StudyDuty := "Attend classes and complete coursework."

  /** The kind of student: undergraduates carry a year level, graduates an advisor. */
  datatype Program = Unspecified | Undergraduate(yearLevel: int) | Graduate(advisor: string)

  /** How an enrollment request ended. */
  datatype Enrollment = Enrolled | CourseFull | MissingPrerequisites(missing: set<string>)

  /** A student: a person with a major and a ledger of courses and grades. */
  class Student {
    const person: Person
    const major: string
    const program: Program
    /** Course identifier to grade, `None` while not graded. */
    var enrolledCourses: Ledger
    /** The GPA as last computed, in hundredths. */
    var gpa: nat

    /** A new student has an empty ledger and a GPA of 0.00. */
    constructor(person: Person, major: string, program: Program := Unspecified)
      ensures this.person == person && this.major == major && this.program == program
      ensures enrolledCourses == map[] && gpa == 0
    {
      this.person := person;
      this.major := major;
      this.program := program;
      enrolledCourses := map[];
      gpa := 0;
    }

    /**
     * Enrolls in `course`: first the prerequisites must all be keys of the
     * ledger, whatever their grades; then the course must have a free seat.
     * Only when both hold does the ledger gain the course, ungraded.
     */
    method EnrollCourse(course: Course<Student>) returns (outcome: Enrollment)
      requires course.Valid()
      modifies this`enrolledCourses, course`roster
      ensures course.Valid()
      ensures !(course.prerequisites <= old(enrolledCourses).Keys) ==>
        && outcome == MissingPrerequisites(course.prerequisites - old(enrolledCourses).Keys)
        && enrolledCourses == old(enrolledCourses)
        && course.roster == old(course.roster)
      ensures course.prerequisites <= old(enrolledCourses).Keys ==>
        && course.roster == Admit(old(course.roster), course.limit, this)
        && (old(|course.roster|) < course.limit ==>
              outcome == Enrolled && enrolledCourses == old(enrolledCourses)[course.courseId := None])
        && (old(|course.roster|) >= course.limit ==>
              outcome == CourseFull && enrolledCourses == old(enrolledCourses))
    {
      var completed := enrolledCourses.Keys;
      if !(course.prerequisites <= completed) {
        return MissingPrerequisites(course.prerequisites - completed);
      }
      var added := course.AddStudent(this);
      if added {
        enrolledCourses := enrolledCourses[course.courseId := None];
        outcome := Enrolled;
      } else {
        outcome := CourseFull;
      }
    }

    /**
     * Drops `course` when it is in the ledger: the student leaves the roster
     * (if there) and the course leaves the ledger, grade and all.
     */
    method DropCourse(course: Course<Student>)
      requires course.Valid()
      modifies this`enrolledCourses, course`roster
      ensures course.Valid()
      ensures course.courseId in old(enrolledCourses) ==>
        && course.roster == RemoveFirst(old(course.roster), this)
        && enrolledCourses == old(enrolledCourses) - {course.courseId}
      ensures course.courseId !in old(enrolledCourses) ==>
        enrolledCourses == old(enrolledCourses) && course.roster == old(course.roster)
    {
      if course.courseId in enrolledCourses {
        course.RemoveStudent(this);
        enrolledCourses := enrolledCourses - {course.courseId};
      }
    }

    /**
     * Recomputes and stores the GPA: every counted grade weighs the same
     * fixed credits, and the mean is rounded to hundredths.
     */
    method CalculateGpa() returns (result: nat)
      modifies this`gpa
      ensures result == GpaOf(enrolledCourses) && gpa == result
      ensures result <= MaxGpa
    {
      var totalPoints, totalCredits := 0, 0;
      var remaining := enrolledCourses.Keys;
      while remaining != {}
        invariant remaining <= enrolledCourses.Keys
        invariant totalPoints + CreditWeight * SumOver(enrolledCourses, remaining, PointsOf)
                  == CreditWeight * GradePointSum(enrolledCourses)
        invariant totalCredits + CreditWeight * SumOver(enrolledCourses, remaining, CountOf)
                  == CreditWeight * GradedCount(enrolledCourses)
        decreases remaining
      {
        var courseId :| courseId in remaining;
        var grade := enrolledCourses[courseId];
        SumOverRemove(enrolledCourses, remaining, PointsOf, courseId);
        SumOverRemove(enrolledCourses, remaining, CountOf, courseId);
        if grade.Some? && grade.value != "" && grade.value in GradePoints {
          totalPoints := totalPoints + GradePoints[grade.value] * CreditWeight;
          totalCredits := totalCredits + CreditWeight;
        }
        remaining := remaining - {courseId};
      }
      if totalCredits == 0 {
        gpa := 0;
        return 0;
      }
      RoundHalfEvenScale(100 * GradePointSum(enrolledCourses), GradedCount(enrolledCourses), CreditWeight);
      gpa := RoundHalfEven(100 * totalPoints, totalCredits);
      result := gpa;
    }

    /** Recomputes the GPA, then classifies it. */
    method GetAcademicStatus() returns (status: Standing)
      modifies this`gpa
      ensures gpa == GpaOf(enrolledCourses) && status == StandingOf(gpa)
    {
      var _ := CalculateGpa();
      if gpa >= 350 {
        status := DeansList;
      } else if gpa >= 200 {
        status := GoodStanding;
      } else {
        status := Probation;
      }
    }

    /** The base list followed by exactly the study duty. */
    function Responsibilities(): (duties: seq<string>)
      ensures |duties| == |person.Responsibilities()| + 1
      ensures duties[..|duties| - 1] == person.Responsibilities()
      ensures duties[|duties| - 1] == StudyDuty
    {
      person.Responsibilities() + [StudyDuty]
    }
  }

  /** Presence of a key satisfies a prerequisite: regrading an enrolled course changes nothing in the check. */
  lemma PrerequisitesIgnoreGrades(prerequisites: set<string>, ledger: Ledger, courseId: string, grade: Option<string>)
    requires courseId in ledger
    ensures (prerequisites <= ledger[courseId := grade].Keys) == (prerequisites <= ledger.Keys)
    ensures prerequisites - ledger[courseId := grade].Keys == prerequisites - ledger.Keys
  {
  }

  /** The error raised for a GPA outside 0.0 to 4.0. */
  datatype GpaError = GpaOutOfRange(rejected: real)

  /**
   * A validated view over one student: a GPA kept within 0.0 to 4.0, set
   * independently of the computed GPA, and a fixed enrollment ceiling.
   */
  class SecureStudentRecord {
    const student: Student
    var gpa: real
    const enrollmentLimit: nat := MaxCourses

    /** The stored GPA is never outside 0.0 to 4.0. */
    ghost predicate Valid()
      reads this
    {
      0.0 <= gpa <= 4.0
    }

    /** The record before its initial GPA is applied: the safe default 0.0. */
    constructor(student: Student)
      ensures Valid() && this.student == student && gpa == 0.0
    {
      this.student := student;
      gpa := 0.0;
    }

    /** Creates a record, passing the initial GPA through the validated setter; an invalid one raises. */
    static method Create(student: Student, initialGpa: real := 0.0) returns (r: Result<SecureStudentRecord, GpaError>)
      ensures r.Success? <==> 0.0 <= initialGpa <= 4.0
      ensures r.Failure? ==> r.error == GpaOutOfRange(initialGpa)
      ensures r.Success? ==> fresh(r.value) && r.value.Valid()
      ensures r.Success? ==> r.value.student == student && r.value.gpa == initialGpa
    {
      var record := new SecureStudentRecord(student);
      var outcome := record.SetGpa(initialGpa);
      if outcome.Fail? {
        return Failure(outcome.error);
      }
      return Success(record);
    }

    /** The last committed GPA, always within 0.0 to 4.0. */
    function GetGpa(): (value: real)
      reads this
      requires Valid()
      ensures value == gpa
      ensures 0.0 <= value <= 4.0
    {
      gpa
    }

    /** Commits `value` when it lies within 0.0 to 4.0; otherwise raises and keeps the old value. */
    method SetGpa(value: real) returns (outcome: Outcome<GpaError>)
      requires Valid()
      modifies this`gpa
      ensures Valid()
      ensures outcome.Pass? <==> 0.0 <= value <= 4.0
      ensures outcome.Pass? ==> gpa == value
      ensures outcome.Fail? ==> gpa == old(gpa) && outcome.error == GpaOutOfRange(value)
    {
      if 0.0 <= value <= 4.0 {
        gpa := value;
        outcome := Pass;
      } else {
        outcome := Fail(GpaOutOfRange(value));
      }
    }

    /** True exactly while the wrapped student's ledger holds fewer courses than the ceiling of five. */
    function CanEnrollMore(): (more: bool)
      reads this, student
      ensures more <==> |student.enrolledCourses| < MaxCourses
    {
      |student.enrolledCourses| < enrollmentLimit
    }

    /** The name of the wrapped student, read through the reference. */
    function GetStudentName(): (name: string)
      ensures name == student.person.name
    {
      student.person.name
    }
  }

  // ---------------------------------------------------------------------------
  // Client scenarios: what callers can conclude from the contracts alone.

  /** A prerequisite is met once the prerequisite course is in the ledger, graded or not. */
  method PrerequisiteWorkflow() {
    var alice := new Student(Person("S001", "Test Student", Date(2000, 1, 1)), "CS", Undergraduate(2));
    var cs101 := new Course<Student>("CS101", "Intro to Programming", 3);
    var cs201 := new Course<Student>("CS201", "Data Structures", 3, prerequisites := ["CS101"]);
    assert cs201.prerequisites == {"CS101"};
    assert cs101.limit == DefaultLimit && cs101.roster == [];

    var r1 := alice.EnrollCourse(cs201);
    assert r1 == MissingPrerequisites({"CS101"});
    assert "CS201" !in alice.enrolledCourses;

    var r2 := alice.EnrollCourse(cs101);
    assert r2 == Enrolled && alice.enrolledCourses == map["CS101" := None];

    var r3 := alice.EnrollCourse(cs201);
    assert r3 == Enrolled;
    assert alice.enrolledCourses == map["CS101" := None, "CS201" := None];
    assert cs201.roster == [alice];
  }

  /**
   * Enrolling again in a course already in the ledger passes the prerequisite
   * check only while the prerequisites are still ledger keys; with a free seat
   * it appends a second roster entry and clears the grade.
   */
  method ReenrollmentWorkflow() {
    var bob := new Student(Person("S002", "Bob", Date(2000, 2, 2)), "CS");
    var cs101 := new Course<Student>("CS101", "Intro to Programming", 3);
    var r1 := bob.EnrollCourse(cs101);
    bob.enrolledCourses := bob.enrolledCourses["CS101" := Some("A")];
    var r2 := bob.EnrollCourse(cs101);
    assert r1 == Enrolled && r2 == Enrolled;
    assert cs101.roster == [bob, bob];
    assert bob.enrolledCourses["CS101"] == None;

    bob.DropCourse(cs101);
    assert cs101.roster == [bob];
    assert bob.enrolledCourses == map[];
  }

  /** Re-enrolling in a full course is refused: the grade and the roster stay as they were. */
  method FullCourseReenrollmentWorkflow() {
    var carol := new Student(Person("S003", "Carol", Date(2000, 3, 3)), "CS");
    var seminar := new Course<Student>("CS150", "Seminar", 3, limit := 1);
    var s1 := carol.EnrollCourse(seminar);
    carol.enrolledCourses := carol.enrolledCourses["CS150" := Some("A")];
    var s2 := carol.EnrollCourse(seminar);
    assert s1 == Enrolled && s2 == CourseFull;
    assert seminar.roster == [carol] && carol.enrolledCourses["CS150"] == Some("A");
  }

  /** Once a prerequisite is dropped, re-enrolling in the course that needs it is refused. */
  method DroppedPrerequisiteWorkflow() {
    var dan := new Student(Person("S004", "Dan", Date(2000, 4, 4)), "CS");
    var cs101 := new Course<Student>("CS101", "Intro to Programming", 3);
    var cs201 := new Course<Student>("CS201", "Data Structures", 3, prerequisites := ["CS101"]);
    var d1 := dan.EnrollCourse(cs101);
    var d2 := dan.EnrollCourse(cs201);
    assert d1 == Enrolled && d2 == Enrolled;
    dan.DropCourse(cs101);
    var d3 := dan.EnrollCourse(cs201);
    assert d3 == MissingPrerequisites({"CS101"});
    assert dan.enrolledCourses == map["CS201" := None] && cs201.roster == [dan];
  }

  /** In a one-seat course the second student is turned away until the first one leaves. */
  method FreedSeatWorkflow() {
    var first := new Student(Person("S001", "Student1", Date(2000, 1, 1)), "CS", Undergraduate(1));
    var second := new Student(Person("S002", "Student2", Date(2000, 1, 2)), "CS", Undergraduate(1));
    var course := new Course<Student>("CS101", "Test", 3, limit := 1);
    var a1 := course.AddStudent(first);
    var a2 := course.AddStudent(second);
    assert a1 && !a2;
    course.RemoveStudent(first);
    var a3 := course.AddStudent(second);
    assert a3 && course.roster == [second];
  }

  /** The validated record accepts in-range values, rejects others without change, and counts ledger keys. */
  method SecureRecordWorkflow() {
    var student := new Student(Person("S001", "Test Student", Date(2000, 1, 1)), "CS", Undergraduate(2));
    var created := SecureStudentRecord.Create(student, 3.0);
    assert created.Success?;
    var record := created.value;
    assert record.GetGpa() == 3.0;
    var ok := record.SetGpa(3.5);
    assert ok.Pass? && record.GetGpa() == 3.5;
    var bad := record.SetGpa(5.0);
    assert bad.Fail? && record.GetGpa() == 3.5;
    assert record.CanEnrollMore();
    student.enrolledCourses := map["CS100" := None, "CS101" := None, "CS102" := None,
                                   "CS103" := None, "CS104" := None];
    assert !record.CanEnrollMore();
    var rejected := SecureStudentRecord.Create(student, -0.1);
    assert rejected.Failure?;
  }
}
