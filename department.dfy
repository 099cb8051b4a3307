/**
 * Departments: courses with a bounded roster and a prerequisite set, and the
 * department catalog that maps course identifiers to courses.
 *
 * A course is generic in the type of what it enrolls, so that this module does
 * not depend on the student module; rosters compare entries by reference.
 */
module Departments {

  /** Capacity of a course when none is given. */
  const DefaultLimit: nat := 30

  // ---------------------------------------------------------------------------
  // Prerequisite sets

  /** The prerequisite set built from a list of identifiers: duplicates collapse. */
  function PrerequisiteSet(ids: seq<string>): (prerequisites: set<string>)
    ensures forall id :: id in prerequisites <==> id in ids
  {
    set id | id in ids
  }

  /** No element occurs twice in `xs`. */
  predicate NoDuplicates<T(==)>(xs: seq<T>) {
    forall i, j :: 0 <= i < j < |xs| ==> xs[i] != xs[j]
  }

  /**
   * The set never has more members than the list has entries, and it has as
   * many exactly when the list has no duplicates.
   */
  lemma {:induction false} PrerequisiteSetSize(ids: seq<string>)
    ensures |PrerequisiteSet(ids)| <= |ids|
    ensures |PrerequisiteSet(ids)| == |ids| <==> NoDuplicates(ids)
  {
    if ids != [] {
      var rest := ids[1..];
      PrerequisiteSetSize(rest);
      assert PrerequisiteSet(ids) == {ids[0]} + PrerequisiteSet(rest) by {
        assert forall id :: id in ids <==> id == ids[0] || id in rest by {
          assert ids == [ids[0]] + rest;
        }
      }
      if ids[0] in rest {
        assert PrerequisiteSet(ids) == PrerequisiteSet(rest);
        var k :| 0 <= k < |rest| && rest[k] == ids[0];
        assert ids[0] == ids[k + 1];
      } else {
        assert ids[0] !in PrerequisiteSet(rest);
        assert NoDuplicates(ids) <==> NoDuplicates(rest) by {
          if NoDuplicates(rest) {
            forall i, j | 0 <= i < j < |ids| ensures ids[i] != ids[j] {
              if i > 0 {
                assert ids[i] == rest[i - 1] && ids[j] == rest[j - 1];
              } else {
                assert ids[j] == rest[j - 1];
              }
            }
          }
          if NoDuplicates(ids) {
            forall i, j | 0 <= i < j < |rest| ensures rest[i] != rest[j] {
              assert rest[i] == ids[i + 1] && rest[j] == ids[j + 1];
            }
          }
        }
      }
    }
  }

  /** The list ["CS101", "CS201", "CS101"] gives a prerequisite set of two courses. */
  lemma DuplicatePrerequisitesCollapse()
    ensures PrerequisiteSet(["CS101", "CS201", "CS101"]) == {"CS101", "CS201"}
    ensures |PrerequisiteSet(["CS101", "CS201", "CS101"])| == 2
  {
  }

  // ---------------------------------------------------------------------------
  // Roster operations as functions on the roster value

  /**
   * The roster after asking to add `s`: appended only while there is a free
   * seat, so a roster within the capacity stays within it.
   */
  function Admit<S>(roster: seq<S>, limit: nat, s: S): (r: seq<S>)
    ensures r == roster || r == roster + [s]
    ensures r == roster + [s] <==> |roster| < limit
    ensures |roster| <= limit ==> |r| <= limit
  {
    if |roster| < limit then roster + [s] else roster
  }

  /** The position of the first occurrence of `s` in `roster`. */
  function FirstIndex<S(==)>(roster: seq<S>, s: S): (i: nat)
    requires s in roster
    ensures i < |roster| && roster[i] == s && s !in roster[..i]
  {
    if roster[0] == s then 0
    else
      assert s in roster[1..] by { assert roster == [roster[0]] + roster[1..]; }
      var i := 1 + FirstIndex(roster[1..], s);
      assert roster[..i] == [roster[0]] + roster[1..][..i - 1];
      i
  }

  /**
   * The roster after removing `s`: only its first occurrence goes; a roster
   * that does not hold `s` is returned as it is.
   */
  function RemoveFirst<S(==)>(roster: seq<S>, s: S): (r: seq<S>)
    ensures s !in roster ==> r == roster
    ensures s in roster ==> |r| == |roster| - 1
    ensures multiset(r) == multiset(roster) - multiset{s}
  {
    if roster == [] then []
    else if roster[0] == s then
      assert roster == [s] + roster[1..];
      roster[1..]
    else
      assert roster == [roster[0]] + roster[1..];
      [roster[0]] + RemoveFirst(roster[1..], s)
  }

  /** Removal passes over a leading entry that is not the student. */
  lemma RemoveFirstPast<S>(x: S, rest: seq<S>, s: S)
    requires x != s
    ensures RemoveFirst([x] + rest, s) == [x] + RemoveFirst(rest, s)
  {
    assert ([x] + rest)[1..] == rest;
  }

  /** Removal passes over a prefix that does not hold the student. */
  lemma {:induction false} RemoveFirstSkips<S>(prefix: seq<S>, suffix: seq<S>, s: S)
    requires s !in prefix
    ensures RemoveFirst(prefix + suffix, s) == prefix + RemoveFirst(suffix, s)
  {
    if prefix == [] {
      assert prefix + suffix == suffix;
    } else {
      var tail := prefix[1..];
      calc {
        RemoveFirst(prefix + suffix, s);
        { assert prefix + suffix == [prefix[0]] + (tail + suffix); }
        RemoveFirst([prefix[0]] + (tail + suffix), s);
        { RemoveFirstPast(prefix[0], tail + suffix, s); }
        [prefix[0]] + RemoveFirst(tail + suffix, s);
        { assert s !in tail by { assert prefix == [prefix[0]] + tail; }
          RemoveFirstSkips(tail, suffix, s); }
        [prefix[0]] + (tail + RemoveFirst(suffix, s));
        { assert prefix == [prefix[0]] + tail; }
        prefix + RemoveFirst(suffix, s);
      }
    }
  }

  /** Removing a member deletes the entry at its first position and keeps the others in order. */
  lemma RemoveFirstAt<S>(roster: seq<S>, s: S)
    requires s in roster
    ensures RemoveFirst(roster, s) == roster[..FirstIndex(roster, s)] + roster[FirstIndex(roster, s) + 1..]
  {
    var i := FirstIndex(roster, s);
    assert roster == roster[..i] + roster[i..];
    RemoveFirstSkips(roster[..i], roster[i..], s);
    assert roster[i..][1..] == roster[i + 1..];
  }

  /** A request against the roster, as callers issue them. */
  datatype RosterRequest<S> = Add(student: S) | Remove(student: S)

  /** The roster after one request. */
  function Apply<S(==)>(roster: seq<S>, limit: nat, req: RosterRequest<S>): seq<S> {
    match req
    case Add(s) => Admit(roster, limit, s)
    case Remove(s) => RemoveFirst(roster, s)
  }

  /** The roster after a sequence of requests, applied in order. */
  function Replay<S(==)>(roster: seq<S>, limit: nat, reqs: seq<RosterRequest<S>>): seq<S>
    decreases |reqs|
  {
    if reqs == [] then roster else Replay(Apply(roster, limit, reqs[0]), limit, reqs[1..])
  }

  /** The capacity bound survives any sequence of add and remove requests. */
  lemma {:induction false} ReplayWithinLimit<S>(roster: seq<S>, limit: nat, reqs: seq<RosterRequest<S>>)
    requires |roster| <= limit
    ensures |Replay(roster, limit, reqs)| <= limit
    decreases |reqs|
  {
    if reqs != [] {
      ReplayWithinLimit(Apply(roster, limit, reqs[0]), limit, reqs[1..]);
    }
  }

  /**
   * In a full course an add is rejected; once a member is removed, the same
   * add is accepted and the newcomer takes the last place.
   */
  lemma FreedSeatAdmits<S>(roster: seq<S>, limit: nat, member: S, newcomer: S)
    requires |roster| == limit && member in roster
    ensures Admit(roster, limit, newcomer) == roster
    ensures Admit(RemoveFirst(roster, member), limit, newcomer) == RemoveFirst(roster, member) + [newcomer]
  {
  }

  // ---------------------------------------------------------------------------
  // Courses

  /** A course with a fixed capacity and prerequisite set and a roster that changes in place. */
  class Course<S(==)> {
    const courseId: string
    const name: string
    const credits: int
    const limit: nat
    const prerequisites: set<string>
    var roster: seq<S>

    /** The roster never holds more entries than the capacity. */
    ghost predicate Valid()
      reads this
    {
      |roster| <= limit
    }

    /** A new course: empty roster, prerequisite set built from the given list. */
    constructor(courseId: string, name: string, credits: int, limit: nat := DefaultLimit,
                prerequisites: seq<string> := [])
      ensures Valid()
      ensures this.courseId == courseId && this.name == name && this.credits == credits
      ensures this.limit == limit
      ensures this.prerequisites == PrerequisiteSet(prerequisites)
      ensures roster == []
    {
      this.courseId := courseId;
      this.name := name;
      this.credits := credits;
      this.limit := limit;
      this.prerequisites := PrerequisiteSet(prerequisites);
      roster := [];
    }

    /** Appends `student` and reports true while a seat is free; otherwise reports false. */
    method AddStudent(student: S) returns (added: bool)
      requires Valid()
      modifies this`roster
      ensures Valid()
      ensures added <==> old(|roster|) < limit
      ensures roster == Admit(old(roster), limit, student)
    {
      if |roster| < limit {
        roster := roster + [student];
        added := true;
      } else {
        added := false;
      }
    }

    /** Removes the first occurrence of `student`; a non-member leaves the roster as it is. */
    method RemoveStudent(student: S)
      requires Valid()
      modifies this`roster
      ensures Valid()
      ensures roster == RemoveFirst(old(roster), student)
    {
      if student in roster {
        roster := RemoveFirst(roster, student);
      }
    }
  }

  // ---------------------------------------------------------------------------
  // Departments

  /** A department: a catalog from course identifier to course, and a faculty list. */
  class Department<S(==), F> {
    const name: string
    var courses: map<string, Course<S>>
    var faculty: seq<F>

    /** Every catalog entry is filed under its own course identifier. */
    ghost predicate Valid()
      reads this
    {
      forall id :: id in courses ==> courses[id].courseId == id
    }

    /** A new department with an empty catalog and no faculty. */
    constructor(name: string)
      ensures Valid()
      ensures this.name == name && courses == map[] && faculty == []
    {
      this.name := name;
      courses := map[];
      faculty := [];
    }

    /** Files `course` under its identifier, replacing any course already filed there. */
    method AddCourse(course: Course<S>)
      requires Valid()
      modifies this`courses
      ensures Valid()
      ensures courses == old(courses)[course.courseId := course]
      ensures course.courseId in courses && courses[course.courseId] == course
      ensures forall id :: id != course.courseId ==> (id in courses <==> id in old(courses))
      ensures forall id :: id in old(courses) && id != course.courseId ==> courses[id] == old(courses)[id]
    {
      courses := courses[course.courseId := course];
    }

    /** Appends a faculty member, keeping the earlier ones in order. */
    method AddFaculty(member: F)
      requires Valid()
      modifies this`faculty
      ensures Valid()
      ensures faculty == old(faculty) + [member]
      ensures |faculty| == old(|faculty|) + 1 && faculty[..old(|faculty|)] == old(faculty)
    {
      faculty := faculty + [member];
    }
  }
}
