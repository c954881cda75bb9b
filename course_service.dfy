/**
 * Course administration (app/services/course_service.py): creating a course
 * with a unique code, partial updates, deletion with its enrollments, and the
 * enrollment check. Each service method is specified by a function on the
 * tables it reads and the tables it writes.
 */
module CourseService {
  import opened Common
  import opened CourseModel
  import opened Session

  /** Some course row already carries the code. */
  predicate CodeTaken(courses: map<int, Course>, code: string) {
    exists k :: k in courses && courses[k].code == code
  }

  /** No two courses share a code (the column is declared unique). */
  ghost predicate UniqueCodes(courses: map<int, Course>) {
    forall k, l :: k in courses && l in courses && k != l ==> courses[k].code != courses[l].code
  }

  datatype CourseError = CodeExists | TeacherNotFound | ConstraintViolation | CourseNotFound

  datatype CreateOutcome = Created(id: int) | NotCreated(why: CourseError)

  /**
   * `create_course`. The code is checked first, then a truthy teacher id.
   * A teacher id of 0 passes that check, and inserting it breaks the
   * teacher foreign key; the session rolls back and reports the constraint.
   */
  function CreateCourseSpec(courses: map<int, Course>, nextId: int, teachers: set<int>, c: Course)
    : (r: (CreateOutcome, map<int, Course>, int))
    ensures r.0 == NotCreated(CodeExists) <==> CodeTaken(courses, c.code)
    ensures r.0 == NotCreated(TeacherNotFound) <==>
      !CodeTaken(courses, c.code) && Truthy(c.teacherId) && c.teacherId.value !in teachers
    ensures r.0 == NotCreated(ConstraintViolation) <==>
      !CodeTaken(courses, c.code) && c.teacherId == Some(0) && 0 !in teachers
    ensures r.0.NotCreated? ==> r.0.why != CourseNotFound && r.1 == courses && r.2 == nextId
    ensures r.0.Created? ==>
      r.0.id == nextId && r.1 == courses[nextId := c] && r.2 == nextId + 1 &&
      (c.teacherId.None? || c.teacherId.value in teachers)
  {
    if CodeTaken(courses, c.code) then (NotCreated(CodeExists), courses, nextId)
    else if Truthy(c.teacherId) && c.teacherId.value !in teachers then (NotCreated(TeacherNotFound), courses, nextId)
    else if c.teacherId.Some? && c.teacherId.value !in teachers then (NotCreated(ConstraintViolation), courses, nextId)
    else (Created(nextId), courses[nextId := c], nextId + 1)
  }

  /** With ids below the counter, a created course is one new row and every other row stays. */
  lemma CreateAddsOneCourse(courses: map<int, Course>, nextId: int, teachers: set<int>, c: Course)
    requires forall k :: k in courses ==> k < nextId
    requires CreateCourseSpec(courses, nextId, teachers, c).0.Created?
    ensures var r := CreateCourseSpec(courses, nextId, teachers, c);
      r.1.Keys == courses.Keys + {nextId} && nextId !in courses && r.1[nextId] == c &&
      (forall k :: k in courses ==> r.1[k] == courses[k]) &&
      |r.1| == |courses| + 1 &&
      (forall k :: k in r.1 ==> k < r.2)
  {
    var r := CreateCourseSpec(courses, nextId, teachers, c);
    assert nextId !in courses;
    assert r.1.Keys == courses.Keys + {nextId};
  }

  /** Creating a course keeps course codes unique. */
  lemma CreateKeepsCodesUnique(courses: map<int, Course>, nextId: int, teachers: set<int>, c: Course)
    requires UniqueCodes(courses)
    requires forall k :: k in courses ==> k < nextId
    ensures UniqueCodes(CreateCourseSpec(courses, nextId, teachers, c).1)
  {
    var r := CreateCourseSpec(courses, nextId, teachers, c);
    if r.0.Created? {
      forall k, l | k in r.1 && l in r.1 && k != l
        ensures r.1[k].code != r.1[l].code
      {
        if k == nextId {
          assert l in courses && courses[l].code != c.code;
        } else if l == nextId {
          assert k in courses && courses[k].code != c.code;
        }
      }
    }
  }

  method CreateCourse(db: Database, c: Course) returns (outcome: CreateOutcome)
    modifies db`courses, db`nextCourseId
    ensures (outcome, db.courses, db.nextCourseId) ==
      CreateCourseSpec(old(db.courses), old(db.nextCourseId), db.teachers.Keys, c)
  {
    if exists k :: k in db.courses && db.courses[k].code == c.code {
      return NotCreated(CodeExists);
    }
    if c.teacherId.Some? && c.teacherId.value != 0 {
      if c.teacherId.value !in db.teachers {
        return NotCreated(TeacherNotFound);
      }
    }
    if c.teacherId.Some? && c.teacherId.value !in db.teachers {
      // the insert fails on the foreign key and is rolled back
      return NotCreated(ConstraintViolation);
    }
    outcome := Created(db.nextCourseId);
    db.courses := db.courses[db.nextCourseId := c];
    db.nextCourseId := db.nextCourseId + 1;
  }

  // ---------------------------------------------------------------------
  // update_course
  // ---------------------------------------------------------------------

  /** The optional arguments of `update_course`; `None` leaves a field alone. */
  datatype CourseUpdate = CourseUpdate(
    name: Option<string>,
    description: Option<string>,
    teacherId: Option<int>,
    capacity: Option<int>,
    fee: Option<int>,
    startDate: Option<int>,
    endDate: Option<int>)

  function Given<T>(o: Option<T>, current: Option<T>): Option<T> {
    if o.Some? then o else current
  }

  /** The field-by-field assignments: each given argument replaces its field; the code never changes. */
  function ApplyUpdate(c: Course, u: CourseUpdate): (r: Course)
    ensures r.code == c.code
    ensures r.name == (if u.name.Some? then u.name.value else c.name)
    ensures r.capacity == (if u.capacity.Some? then u.capacity.value else c.capacity)
    ensures u.description.Some? ==> r.description == u.description
    ensures u.description.None? ==> r.description == c.description
    ensures u.teacherId.Some? ==> r.teacherId == u.teacherId
    ensures u.teacherId.None? ==> r.teacherId == c.teacherId
    ensures u.fee.Some? ==> r.fee == u.fee
    ensures u.fee.None? ==> r.fee == c.fee
    ensures u.startDate.Some? ==> r.startDate == u.startDate
    ensures u.startDate.None? ==> r.startDate == c.startDate
    ensures u.endDate.Some? ==> r.endDate == u.endDate
    ensures u.endDate.None? ==> r.endDate == c.endDate
  {
    Course(GetOr(u.name, c.name), c.code, Given(u.description, c.description), Given(u.teacherId, c.teacherId),
           GetOr(u.capacity, c.capacity), Given(u.startDate, c.startDate), Given(u.endDate, c.endDate),
           Given(u.fee, c.fee))
  }

  const NoChange: CourseUpdate := CourseUpdate(None, None, None, None, None, None, None)

  /** An update with no arguments changes nothing, and applying an update twice is applying it once. */
  lemma ApplyUpdateLaws(c: Course, u: CourseUpdate)
    ensures ApplyUpdate(c, NoChange) == c
    ensures ApplyUpdate(ApplyUpdate(c, u), u) == ApplyUpdate(c, u)
  {
  }

  datatype UpdateOutcome = Updated | NotUpdated(why: CourseError)

  /** `update_course`: a missing course, then a given teacher id without a teacher row, reject with no change. */
  function UpdateCourseSpec(courses: map<int, Course>, teachers: set<int>, id: int, u: CourseUpdate)
    : (r: (UpdateOutcome, map<int, Course>))
    ensures r.0 == NotUpdated(CourseNotFound) <==> id !in courses
    ensures r.0 == NotUpdated(TeacherNotFound) <==>
      id in courses && u.teacherId.Some? && u.teacherId.value !in teachers
    ensures r.0.NotUpdated? ==> r.1 == courses
    ensures r.0.Updated? <==> id in courses && (u.teacherId.None? || u.teacherId.value in teachers)
    ensures r.0.Updated? ==> r.1 == courses[id := ApplyUpdate(courses[id], u)]
  {
    if id !in courses then (NotUpdated(CourseNotFound), courses)
    else if u.teacherId.Some? && u.teacherId.value !in teachers then (NotUpdated(TeacherNotFound), courses)
    else (Updated, courses[id := ApplyUpdate(courses[id], u)])
  }

  /** An update keeps the set of courses and every code, so codes stay unique. */
  lemma UpdateKeepsCodes(courses: map<int, Course>, teachers: set<int>, id: int, u: CourseUpdate)
    requires UniqueCodes(courses)
    ensures var r := UpdateCourseSpec(courses, teachers, id, u);
      r.1.Keys == courses.Keys && (forall k :: k in courses ==> r.1[k].code == courses[k].code) &&
      UniqueCodes(r.1)
  {
  }

  /**
   * The new capacity is not checked against the enrollments: a course with
   * two active students accepts capacity 1 and is then over-full.
   */
  lemma UpdateMayOverfill()
    ensures var c := Course("Algebra", "ALG1", None, None, 2, None, None, None);
      var es := [Enrollment(1, 7, 1, None, Active), Enrollment(2, 8, 1, None, Active)];
      var r := UpdateCourseSpec(map[1 := c], {}, 1, NoChange.(capacity := Some(1)));
      r.0 == Updated && EnrolledCount(es, 1) > r.1[1].capacity
  {
    var es := [Enrollment(1, 7, 1, None, Active), Enrollment(2, 8, 1, None, Active)];
    assert es[..1][..0] == [];
    assert EnrolledCount(es, 1) == 2;
  }

  method UpdateCourse(db: Database, id: int, u: CourseUpdate) returns (outcome: UpdateOutcome)
    modifies db`courses
    ensures (outcome, db.courses) == UpdateCourseSpec(old(db.courses), db.teachers.Keys, id, u)
  {
    if id !in db.courses {
      return NotUpdated(CourseNotFound);
    }
    if u.teacherId.Some? && u.teacherId.value !in db.teachers {
      return NotUpdated(TeacherNotFound);
    }
    var course := db.courses[id];
    if u.name.Some? {
      course := course.(name := u.name.value);
    }
    if u.description.Some? {
      course := course.(description := u.description);
    }
    if u.teacherId.Some? {
      course := course.(teacherId := u.teacherId);
    }
    if u.capacity.Some? {
      course := course.(capacity := u.capacity.value);
    }
    if u.fee.Some? {
      course := course.(fee := u.fee);
    }
    if u.startDate.Some? {
      course := course.(startDate := u.startDate);
    }
    if u.endDate.Some? {
      course := course.(endDate := u.endDate);
    }
    db.courses := db.courses[id := course];
    outcome := Updated;
  }

  // ---------------------------------------------------------------------
  // delete_course
  // ---------------------------------------------------------------------

  function OtherCourse(id: int): Enrollment -> bool {
    (e: Enrollment) => e.courseId != id
  }

  /** `delete_course`: the course row goes, and its enrollments with it (delete-orphan cascade). */
  function DeleteCourseSpec(courses: map<int, Course>, es: seq<Enrollment>, id: int)
    : (r: (bool, map<int, Course>, seq<Enrollment>))
    ensures r.0 <==> id in courses
    ensures !r.0 ==> r.1 == courses && r.2 == es
    ensures r.1.Keys == courses.Keys - {id} && forall k :: k in r.1 ==> r.1[k] == courses[k]
    ensures forall j :: 0 <= j < |r.2| ==> r.2[j] in es
    ensures r.0 ==> forall j :: 0 <= j < |r.2| ==> r.2[j].courseId != id
    ensures forall i :: 0 <= i < |es| && es[i].courseId != id ==> es[i] in r.2
  {
    if id !in courses then
      assert forall j :: 0 <= j < |es| ==> es[j] in es;
      (false, courses, es)
    else (true, courses - {id}, Filter(es, OtherCourse(id)))
  }

  /** After a deletion no enrollment counts towards the deleted course; other courses keep their counts. */
  lemma DeleteLeavesOtherCounts(courses: map<int, Course>, es: seq<Enrollment>, id: int, other: int)
    requires id in courses
    ensures var r := DeleteCourseSpec(courses, es, id);
      EnrolledCount(r.2, id) == 0 &&
      (other != id ==> EnrolledCount(r.2, other) == EnrolledCount(es, other))
  {
    var r := DeleteCourseSpec(courses, es, id);
    CountZero(r.2, ActiveIn(id));
    if other != id {
      FilterKeepsCount(es, id, other);
    }
  }

  lemma {:induction false} FilterKeepsCount(es: seq<Enrollment>, id: int, other: int)
    requires other != id
    ensures EnrolledCount(Filter(es, OtherCourse(id)), other) == EnrolledCount(es, other)
  {
    if es != [] {
      var init := es[..|es| - 1];
      var x := es[|es| - 1];
      FilterKeepsCount(init, id, other);
      if OtherCourse(id)(x) {
        AddTakesSeat(Filter(init, OtherCourse(id)), x, other);
      }
      assert es == init + [x];
      AddTakesSeat(init, x, other);
    }
  }

  method DeleteCourse(db: Database, id: int) returns (deleted: bool)
    modifies db`courses, db`enrollments
    ensures (deleted, db.courses, db.enrollments) == DeleteCourseSpec(old(db.courses), old(db.enrollments), id)
  {
    if id !in db.courses {
      return false;
    }
    db.enrollments := Filter(db.enrollments, OtherCourse(id));
    db.courses := db.courses - {id};
    deleted := true;
  }

  /** `is_student_enrolled`: an ACTIVE enrollment of the student in the course exists. */
  function IsStudentEnrolled(es: seq<Enrollment>, studentId: int, courseId: int): (r: bool)
    ensures r <==> exists i :: 0 <= i < |es| && es[i].studentId == studentId &&
                                es[i].courseId == courseId && es[i].status == Active
  {
    FindActive(es, studentId, courseId).Some?
  }

  /** Dropping the only active enrollment of the pair makes the student no longer enrolled. */
  lemma DroppedNotEnrolled(es: seq<Enrollment>, i: nat)
    requires i < |es| && IsActive(es[i])
    requires forall j :: 0 <= j < |es| && j != i ==> !ActiveOf(es[i].studentId, es[i].courseId)(es[j])
    ensures IsStudentEnrolled(es, es[i].studentId, es[i].courseId)
    ensures !IsStudentEnrolled(es[i := MarkDropped(es[i])], es[i].studentId, es[i].courseId)
  {
  }
}
