/**
 * Courses and the enrollments that link students to them
 * (app/models/course.py). A course's `enrollments` relationship is the set of
 * enrollment rows whose `courseId` is the course's id.
 */
module CourseModel {
  import opened Common

  datatype EnrollmentStatus = Active | Completed | Dropped

  /** A row of `course_enrollments`; dates are seconds. */
  datatype Enrollment = Enrollment(
    id: int,
    studentId: int,
    courseId: int,
    enrolledAt: Option<int>,
    status: EnrollmentStatus)

  /** A row of `courses`, without its id (the key of the table). Money is in cents. */
  datatype Course = Course(
    name: string,
    code: string,
    description: Option<string>,
    teacherId: Option<int>,
    capacity: int,
    startDate: Option<int>,
    endDate: Option<int>,
    fee: Option<int>)

  /** The `capacity` column's default. */
  const DefaultCapacity: int := 30

  function ActiveIn(courseId: int): Enrollment -> bool {
    (e: Enrollment) => e.courseId == courseId && e.status == Active
  }

  /** `Course.enrolled_count`: the ACTIVE enrollments of the course. */
  function EnrolledCount(es: seq<Enrollment>, courseId: int): (n: nat)
    ensures n == |set i: nat | i < |es| && es[i].courseId == courseId && es[i].status == Active|
  {
    var n := Count(es, ActiveIn(courseId));
    assert Where(es, ActiveIn(courseId))
        == set i: nat | i < |es| && es[i].courseId == courseId && es[i].status == Active;
    n
  }

  /** `Course.is_full`. */
  predicate IsFull(c: Course, courseId: int, es: seq<Enrollment>) {
    EnrolledCount(es, courseId) >= c.capacity
  }

  /** `Course.available_slots`: never negative, and zero exactly when the course is full. */
  function AvailableSlots(c: Course, courseId: int, es: seq<Enrollment>): (n: nat)
    ensures n == 0 <==> IsFull(c, courseId, es)
    ensures n > 0 ==> EnrolledCount(es, courseId) + n == c.capacity
  {
    if c.capacity - EnrolledCount(es, courseId) > 0 then c.capacity - EnrolledCount(es, courseId) else 0
  }

  /** `Course.fee_amount`: a missing (or zero) fee reads as 0. */
  function FeeAmount(c: Course): (fee: int)
    ensures c.fee.None? ==> fee == 0
    ensures c.fee.Some? ==> fee == c.fee.value
  {
    if c.fee.Some? && c.fee.value != 0 then c.fee.value else 0
  }

  /** `Course.can_enroll_student`. */
  predicate CanEnrollStudent(c: Course, courseId: int, es: seq<Enrollment>) {
    !IsFull(c, courseId, es)
  }

  /** A course that accepts a student has a free slot, and the other way round. */
  lemma CanEnrollIffSlot(c: Course, courseId: int, es: seq<Enrollment>)
    ensures CanEnrollStudent(c, courseId, es) <==> AvailableSlots(c, courseId, es) > 0
    ensures CanEnrollStudent(c, courseId, es) <==> EnrolledCount(es, courseId) < c.capacity
  {
  }

  /** `CourseEnrollment.is_active`. */
  predicate IsActive(e: Enrollment) {
    e.status == Active
  }

  /** `CourseEnrollment.mark_completed`: only the status changes. */
  function MarkCompleted(e: Enrollment): (r: Enrollment)
    ensures r.status == Completed && !IsActive(r)
    ensures r.id == e.id && r.studentId == e.studentId && r.courseId == e.courseId
    ensures r.enrolledAt == e.enrolledAt
  {
    e.(status := Completed)
  }

  /** `CourseEnrollment.mark_dropped`: only the status changes. */
  function MarkDropped(e: Enrollment): (r: Enrollment)
    ensures r.status == Dropped && !IsActive(r)
    ensures r.id == e.id && r.studentId == e.studentId && r.courseId == e.courseId
    ensures r.enrolledAt == e.enrolledAt
  {
    e.(status := Dropped)
  }

  /** Dropping an active enrollment frees exactly one seat of its course and no other. */
  lemma DropFreesOneSeat(es: seq<Enrollment>, i: nat, courseId: int)
    requires i < |es| && IsActive(es[i])
    ensures EnrolledCount(es[i := MarkDropped(es[i])], courseId) ==
            EnrolledCount(es, courseId) - (if es[i].courseId == courseId then 1 else 0)
  {
    CountUpdate(es, i, MarkDropped(es[i]), ActiveIn(courseId));
  }

  /** Marking an enrollment completed, too, never adds a seat in use. */
  lemma CompleteFreesSeat(es: seq<Enrollment>, i: nat, courseId: int)
    requires i < |es|
    ensures EnrolledCount(es[i := MarkCompleted(es[i])], courseId) <= EnrolledCount(es, courseId)
  {
    CountUpdate(es, i, MarkCompleted(es[i]), ActiveIn(courseId));
  }

  /** A new enrollment row takes a seat of its course exactly when it is active. */
  lemma AddTakesSeat(es: seq<Enrollment>, e: Enrollment, courseId: int)
    ensures EnrolledCount(es + [e], courseId) ==
            EnrolledCount(es, courseId) + (if e.courseId == courseId && IsActive(e) then 1 else 0)
  {
    CountAppend(es, e, ActiveIn(courseId));
  }

  function ActiveOf(studentId: int, courseId: int): Enrollment -> bool {
    (e: Enrollment) => e.studentId == studentId && e.courseId == courseId && e.status == Active
  }

  /** The first ACTIVE enrollment of `studentId` in `courseId` (a query's `.first()`). */
  function FindActive(es: seq<Enrollment>, studentId: int, courseId: int): (r: Option<nat>)
    ensures r.None? <==> forall i :: 0 <= i < |es| ==>
      !(es[i].studentId == studentId && es[i].courseId == courseId && es[i].status == Active)
    ensures r.Some? ==>
      r.value < |es| && es[r.value].studentId == studentId &&
      es[r.value].courseId == courseId && es[r.value].status == Active
  {
    First(es, ActiveOf(studentId, courseId))
  }

  function HasId(id: int): Enrollment -> bool {
    (e: Enrollment) => e.id == id
  }

  /** The first enrollment with the given id. */
  function FindEnrollment(es: seq<Enrollment>, id: int): (r: Option<nat>)
    ensures r.None? <==> forall i :: 0 <= i < |es| ==> es[i].id != id
    ensures r.Some? ==> r.value < |es| && es[r.value].id == id
  {
    First(es, HasId(id))
  }
}
