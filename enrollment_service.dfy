/**
 * The course capacity and waiting-list engine (app/services/enrollment_service.py).
 *
 * Each course has its own waiting list: the queue named `Course_<id>_Queue`.
 * Enrolling either admits the student, rejects the request, or appends a
 * WAITING item to that queue. Dropping an enrollment frees a seat, and the
 * best waiting student is promoted into it.
 *
 * Every operation is defined twice. A function on an `Engine` snapshot of the
 * tables involved specifies it. A method on the `Database` does the steps of
 * the source and is proved to produce that function's result.
 */
module EnrollmentService {
  import opened Common
  import opened Text
  import opened CourseModel
  import opened QueueModel
  import opened Session

  /** The tables the engine reads and writes; `students` are the user ids that have a Student row. */
  datatype Engine = Engine(
    students: set<int>,
    courses: map<int, Course>,
    enrollments: seq<Enrollment>,
    nextEnrollmentId: int,
    queues: seq<Queue>,
    items: seq<QueueItem>)

  function Snapshot(db: Database): Engine
    reads db
  {
    Engine(db.students.Keys, db.courses, db.enrollments, db.nextEnrollmentId, db.queues, db.queueItems)
  }

  // ---------------------------------------------------------------------
  // The per-course queue and its name
  // ---------------------------------------------------------------------

  function CourseQueueName(courseId: int): string {
    "Course_" + IntToString(courseId) + "_Queue"
  }

  /** The queue `_get_or_create_course_queue` creates: unlimited, of type REGISTRATION. */
  function NewCourseQueue(courseId: int): Queue {
    Queue(CourseQueueName(courseId), Some("Waiting list for course ID " + IntToString(courseId)), Registration, 0)
  }

  /**
   * The course id `get_student_courses_and_queues` reads from a queue name:
   * the name must start with `Course_`, and the second `_`-separated piece
   * must be an integer; anything else is skipped (`None`).
   */
  function CourseIdOfQueueName(name: string): (r: Option<int>)
    ensures !StartsWith(name, "Course_") ==> r.None?
  {
    if !StartsWith(name, "Course_") then None
    else
      var parts := Split(name, '_');
      if |parts| < 2 then None else ParseInt(parts[1])
  }

  /** Reading the id back from a course queue's name gives the course. */
  lemma QueueNameRoundTrip(courseId: int)
    ensures CourseIdOfQueueName(CourseQueueName(courseId)) == Some(courseId)
  {
    var digits := IntToString(courseId);
    var name := CourseQueueName(courseId);
    assert name == "Course" + ['_'] + (digits + ['_'] + "Queue");
    assert StartsWith(name, "Course_") by { assert name[..7] == "Course_"; }
    SplitAfter("Course", digits + ['_'] + "Queue", '_');
    SplitAfter(digits, "Queue", '_');
    assert Split(name, '_')[1] == digits;
    ParseIntToString(courseId);
  }

  /** Different courses never share a queue name. */
  lemma CourseQueueNameInjective(a: int, b: int)
    requires CourseQueueName(a) == CourseQueueName(b)
    ensures a == b
  {
    QueueNameRoundTrip(a);
    QueueNameRoundTrip(b);
  }

  function Named(name: string): Queue -> bool {
    (q: Queue) => q.name == name
  }

  /** `db.query(Queue).filter(Queue.queue_name == name).first()`: the queue's id is its index. */
  function FindQueue(queues: seq<Queue>, name: string): (r: Option<nat>)
    ensures r.None? <==> forall i :: 0 <= i < |queues| ==> queues[i].name != name
    ensures r.Some? ==> r.value < |queues| && queues[r.value].name == name
    ensures r.Some? ==> forall i :: 0 <= i < r.value ==> queues[i].name != name
  {
    First(queues, Named(name))
  }

  /** The course's queue, created when no queue has its name yet: the new queue list and the queue's id. */
  function WithCourseQueue(queues: seq<Queue>, courseId: int): (r: (seq<Queue>, nat))
    ensures r.1 < |r.0| && FindQueue(r.0, CourseQueueName(courseId)) == Some(r.1)
    ensures r.0[r.1].maxCapacity == 0 || FindQueue(queues, CourseQueueName(courseId)).Some?
    ensures FindQueue(queues, CourseQueueName(courseId)).Some? ==> r.0 == queues
    ensures FindQueue(queues, CourseQueueName(courseId)).None? ==>
      r.0 == queues + [NewCourseQueue(courseId)]
  {
    var name := CourseQueueName(courseId);
    match FindQueue(queues, name)
    case Some(q) => (queues, q)
    case None =>
      FirstAppend(queues, NewCourseQueue(courseId), Named(name));
      (queues + [NewCourseQueue(courseId)], |queues|)
  }

  /** Get-or-create is idempotent: the second call finds the queue the first call made. */
  lemma GetOrCreateIdempotent(queues: seq<Queue>, courseId: int)
    ensures var r := WithCourseQueue(queues, courseId);
      WithCourseQueue(r.0, courseId) == r
  {
  }

  /** Creating one course's queue leaves the lookup of every other name as it was. */
  lemma WithCourseQueueOthers(queues: seq<Queue>, courseId: int, name: string)
    requires name != CourseQueueName(courseId)
    ensures FindQueue(WithCourseQueue(queues, courseId).0, name) == FindQueue(queues, name)
  {
    if FindQueue(queues, CourseQueueName(courseId)).None? {
      FirstAppend(queues, NewCourseQueue(courseId), Named(name));
    }
  }

  function WaitingFor(q: int, userId: int): QueueItem -> bool {
    (it: QueueItem) => it.queueId == q && it.userId == userId && it.status == Waiting
  }

  /** The first WAITING item of `userId` in queue `q`. */
  function FindWaiting(items: seq<QueueItem>, q: int, userId: int): (r: Option<nat>)
    ensures r.None? <==> forall i :: 0 <= i < |items| ==>
      !(items[i].queueId == q && items[i].userId == userId && items[i].status == Waiting)
    ensures r.Some? ==>
      r.value < |items| && items[r.value].queueId == q &&
      items[r.value].userId == userId && items[r.value].status == Waiting
  {
    First(items, WaitingFor(q, userId))
  }

  /** The item `_add_to_course_queue` stores: WAITING, priority 0, joined now. */
  function NewWaitingItem(q: int, studentId: int, courseId: int, position: int, now: int): QueueItem {
    QueueItem(q, studentId, position, Waiting, 0, Some(now), None,
              Some("Waiting for course ID " + IntToString(courseId)))
  }

  function NewEnrollment(id: int, studentId: int, courseId: int, now: int): Enrollment {
    Enrollment(id, studentId, courseId, Some(now), Active)
  }

  // ---------------------------------------------------------------------
  // enroll_student
  // ---------------------------------------------------------------------

  datatype Rejection = StudentNotFound | CourseNotFound | AlreadyEnrolled | AlreadyWaiting(position: int)

  /** The three results of an enroll request; `Queued` carries the waiting-list position. */
  datatype EnrollOutcome = Rejected(why: Rejection) | Admitted | Queued(position: int)

  /**
   * `enroll_student`: the checks run in the order of the source and the first
   * failure wins; the queue is fetched or created once the student is known
   * not to be enrolled, before the waiting-list check and whatever the
   * capacity. A student is admitted only into a free seat, and queued only
   * behind everyone already waiting.
   */
  function Enroll(e: Engine, studentId: int, courseId: int, now: int): (r: (EnrollOutcome, Engine))
    ensures r.1.students == e.students && r.1.courses == e.courses
    ensures r.0 == Rejected(StudentNotFound) <==> studentId !in e.students
    ensures r.0 == Rejected(CourseNotFound) <==> studentId in e.students && courseId !in e.courses
    ensures r.0 == Rejected(AlreadyEnrolled) <==>
      studentId in e.students && courseId in e.courses && FindActive(e.enrollments, studentId, courseId).Some?
    ensures r.0.Rejected? && r.0.why.AlreadyWaiting? <==>
      studentId in e.students && courseId in e.courses && FindActive(e.enrollments, studentId, courseId).None? &&
      FindWaiting(e.items, WithCourseQueue(e.queues, courseId).1, studentId).Some?
    ensures r.0.Rejected? && !r.0.why.AlreadyWaiting? ==> r.1 == e
    ensures !(r.0.Rejected? && !r.0.why.AlreadyWaiting?) ==>
      r.1.queues == WithCourseQueue(e.queues, courseId).0 &&
      FindActive(e.enrollments, studentId, courseId).None?
    ensures r.0.Rejected? ==>
      r.1.enrollments == e.enrollments && r.1.nextEnrollmentId == e.nextEnrollmentId && r.1.items == e.items
    ensures r.0.Rejected? && r.0.why.AlreadyWaiting? ==>
      exists k :: 0 <= k < |e.items| && WaitingFor(WithCourseQueue(e.queues, courseId).1, studentId)(e.items[k]) &&
        e.items[k].position == r.0.why.position
    ensures r.0.Admitted? ==>
      courseId in e.courses && EnrolledCount(e.enrollments, courseId) < e.courses[courseId].capacity &&
      FindWaiting(e.items, WithCourseQueue(e.queues, courseId).1, studentId).None? &&
      r.1.enrollments == e.enrollments + [NewEnrollment(e.nextEnrollmentId, studentId, courseId, now)] &&
      r.1.nextEnrollmentId == e.nextEnrollmentId + 1 && r.1.items == e.items
    ensures r.0.Queued? ==>
      var q := WithCourseQueue(e.queues, courseId).1;
      courseId in e.courses && EnrolledCount(e.enrollments, courseId) >= e.courses[courseId].capacity &&
      FindWaiting(e.items, q, studentId).None? &&
      r.1.enrollments == e.enrollments && r.1.nextEnrollmentId == e.nextEnrollmentId &&
      r.1.items == e.items + [NewWaitingItem(q, studentId, courseId, r.0.position, now)] &&
      r.0.position == NextPosition(e.items, q) &&
      forall i :: 0 <= i < |e.items| && WaitingIn(q)(e.items[i]) ==> e.items[i].position < r.0.position
  {
    if studentId !in e.students then (Rejected(StudentNotFound), e)
    else if courseId !in e.courses then (Rejected(CourseNotFound), e)
    else if FindActive(e.enrollments, studentId, courseId).Some? then (Rejected(AlreadyEnrolled), e)
    else
      var (queues, q) := WithCourseQueue(e.queues, courseId);
      var e1 := e.(queues := queues);
      match FindWaiting(e.items, q, studentId)
      case Some(k) => (Rejected(AlreadyWaiting(e.items[k].position)), e1)
      case None =>
        if CanEnrollStudent(e.courses[courseId], courseId, e.enrollments) then
          (Admitted, e1.(enrollments := e.enrollments + [NewEnrollment(e.nextEnrollmentId, studentId, courseId, now)],
                         nextEnrollmentId := e.nextEnrollmentId + 1))
        else
          var position := NextPosition(e.items, q);
          (Queued(position), e1.(items := e.items + [NewWaitingItem(q, studentId, courseId, position, now)]))
  }

  /** `_get_or_create_course_queue`: the id of the course's queue, created if missing. */
  method GetOrCreateCourseQueue(db: Database, courseId: int) returns (q: nat)
    modifies db`queues
    ensures (db.queues, q) == WithCourseQueue(old(db.queues), courseId)
  {
    var found := FindQueue(db.queues, CourseQueueName(courseId));
    if found.Some? {
      q := found.value;
    } else {
      db.queues := db.queues + [NewCourseQueue(courseId)];
      q := |db.queues| - 1;
    }
  }

  /** `_add_to_course_queue`: appends a WAITING item at the queue's next position. */
  method AddToCourseQueue(db: Database, studentId: int, courseId: int, q: nat, now: int) returns (position: int)
    modifies db`queueItems
    ensures position == NextPosition(old(db.queueItems), q)
    ensures db.queueItems == old(db.queueItems) + [NewWaitingItem(q, studentId, courseId, position, now)]
  {
    position := NextPosition(db.queueItems, q);
    db.queueItems := db.queueItems + [NewWaitingItem(q, studentId, courseId, position, now)];
  }

  /** `enroll_student` on the database; `now` is the enrollment and join time. */
  method EnrollStudent(db: Database, studentId: int, courseId: int, now: int) returns (outcome: EnrollOutcome)
    modifies db`enrollments, db`nextEnrollmentId, db`queues, db`queueItems
    ensures (outcome, Snapshot(db)) == Enroll(old(Snapshot(db)), studentId, courseId, now)
  {
    if studentId !in db.students {
      return Rejected(StudentNotFound);
    }
    if courseId !in db.courses {
      return Rejected(CourseNotFound);
    }
    if FindActive(db.enrollments, studentId, courseId).Some? {
      return Rejected(AlreadyEnrolled);
    }
    outcome := AdmitOrQueue(db, studentId, courseId, now);
  }

  /** The part of `enroll_student` after the student, the course and the enrollment checks have passed. */
  method AdmitOrQueue(db: Database, studentId: int, courseId: int, now: int) returns (outcome: EnrollOutcome)
    requires studentId in db.students && courseId in db.courses
    requires FindActive(db.enrollments, studentId, courseId).None?
    modifies db`enrollments, db`nextEnrollmentId, db`queues, db`queueItems
    ensures (outcome, Snapshot(db)) == Enroll(old(Snapshot(db)), studentId, courseId, now)
  {
    ghost var e0 := Snapshot(db);
    ghost var r := Enroll(e0, studentId, courseId, now);
    var q := GetOrCreateCourseQueue(db, courseId);
    ghost var e1 := e0.(queues := db.queues);
    var existing := FindWaiting(db.queueItems, q, studentId);
    if existing.Some? {
      outcome := Rejected(AlreadyWaiting(db.queueItems[existing.value].position));
      assert r == (outcome, e1);
      return;
    }
    if CanEnrollStudent(db.courses[courseId], courseId, db.enrollments) {
      db.enrollments := db.enrollments + [NewEnrollment(db.nextEnrollmentId, studentId, courseId, now)];
      db.nextEnrollmentId := db.nextEnrollmentId + 1;
      outcome := Admitted;
      assert r == (outcome, e1.(enrollments := db.enrollments, nextEnrollmentId := db.nextEnrollmentId));
    } else {
      var position := AddToCourseQueue(db, studentId, courseId, q, now);
      outcome := Queued(position);
      assert r == (outcome, e1.(items := db.queueItems));
    }
  }

  // ---------------------------------------------------------------------
  // _promote_from_queue and drop_enrollment
  // ---------------------------------------------------------------------

  /**
   * The item `_promote_from_queue` would promote into course `courseId`: the
   * course exists and has a free seat, its queue exists, and the queue's next
   * waiting item belongs to a student. The enrollment's foreign key demands a
   * Student row; without one the commit fails, the session rolls back and the
   * promotion does not happen.
   */
  function PromotionCandidate(e: Engine, courseId: int): (r: Option<nat>)
    ensures r.Some? ==>
      courseId in e.courses && EnrolledCount(e.enrollments, courseId) < e.courses[courseId].capacity &&
      FindQueue(e.queues, CourseQueueName(courseId)).Some? &&
      r.value < |e.items| && e.items[r.value].userId in e.students &&
      var q := FindQueue(e.queues, CourseQueueName(courseId)).value;
      WaitingIn(q)(e.items[r.value]) &&
      forall i :: 0 <= i < |e.items| && WaitingIn(q)(e.items[i]) ==> !ServedBefore(e.items[i], e.items[r.value])
    ensures (r.None? && courseId in e.courses && EnrolledCount(e.enrollments, courseId) < e.courses[courseId].capacity &&
             FindQueue(e.queues, CourseQueueName(courseId)).Some?) ==>
      var q := FindQueue(e.queues, CourseQueueName(courseId)).value;
      CurrentLength(e.items, q) == 0 || e.items[NextWaiting(e.items, q).value].userId !in e.students
  {
    if courseId !in e.courses || !CanEnrollStudent(e.courses[courseId], courseId, e.enrollments) then None
    else match FindQueue(e.queues, CourseQueueName(courseId))
      case None => None
      case Some(q) =>
        match NextWaiting(e.items, q)
        case None =>
          CountZero(e.items, WaitingIn(q));
          None
        case Some(k) => if e.items[k].userId in e.students then Some(k) else None
  }

  /**
   * `_promote_from_queue`: with a candidate, one ACTIVE enrollment is added
   * for its user and the item is marked COMPLETED; otherwise nothing changes.
   */
  function Promote(e: Engine, courseId: int, now: int): (r: (bool, Engine))
    ensures r.0 <==> PromotionCandidate(e, courseId).Some?
    ensures !r.0 ==> r.1 == e
    ensures r.0 ==>
      var k := PromotionCandidate(e, courseId).value;
      r.1 == e.(enrollments := e.enrollments + [NewEnrollment(e.nextEnrollmentId, e.items[k].userId, courseId, now)],
                nextEnrollmentId := e.nextEnrollmentId + 1,
                items := e.items[k := QueueModel.MarkCompleted(e.items[k], now)])
  {
    match PromotionCandidate(e, courseId)
    case None => (false, e)
    case Some(k) =>
      (true, e.(enrollments := e.enrollments + [NewEnrollment(e.nextEnrollmentId, e.items[k].userId, courseId, now)],
                nextEnrollmentId := e.nextEnrollmentId + 1,
                items := e.items[k := QueueModel.MarkCompleted(e.items[k], now)]))
  }

  /** A promotion fills exactly one seat of its course, no seat elsewhere, and shortens its queue by one. */
  lemma PromoteFillsOneSeat(e: Engine, courseId: int, now: int)
    ensures var r := Promote(e, courseId, now);
      EnrolledCount(r.1.enrollments, courseId) == EnrolledCount(e.enrollments, courseId) + (if r.0 then 1 else 0)
    ensures var r := Promote(e, courseId, now);
      forall d :: d != courseId ==> EnrolledCount(r.1.enrollments, d) == EnrolledCount(e.enrollments, d)
    ensures var r := Promote(e, courseId, now);
      r.0 ==> var q := FindQueue(e.queues, CourseQueueName(courseId)).value;
        CurrentLength(r.1.items, q) == CurrentLength(e.items, q) - 1
  {
    var r := Promote(e, courseId, now);
    if r.0 {
      var k := PromotionCandidate(e, courseId).value;
      var en := NewEnrollment(e.nextEnrollmentId, e.items[k].userId, courseId, now);
      AddTakesSeat(e.enrollments, en, courseId);
      forall d | d != courseId
        ensures EnrolledCount(r.1.enrollments, d) == EnrolledCount(e.enrollments, d)
      {
        AddTakesSeat(e.enrollments, en, d);
      }
      var q := FindQueue(e.queues, CourseQueueName(courseId)).value;
      CountUpdate(e.items, k, QueueModel.MarkCompleted(e.items[k], now), WaitingIn(q));
    }
  }

  datatype DropOutcome = EnrollmentNotFound | NotActive | DroppedOk

  /**
   * `drop_enrollment`: an unknown id or an enrollment that is not ACTIVE is
   * refused with nothing changed; otherwise the enrollment is DROPPED and a
   * promotion into its course is attempted. Success is reported whether or
   * not anyone was promoted.
   */
  function Drop(e: Engine, id: int, now: int): (r: (DropOutcome, Engine))
    ensures r.0 == EnrollmentNotFound <==> forall i :: 0 <= i < |e.enrollments| ==> e.enrollments[i].id != id
    ensures r.0 == NotActive <==>
      FindEnrollment(e.enrollments, id).Some? && !IsActive(e.enrollments[FindEnrollment(e.enrollments, id).value])
    ensures r.0 != DroppedOk ==> r.1 == e
    ensures r.0 == DroppedOk ==>
      var i := FindEnrollment(e.enrollments, id).value;
      IsActive(e.enrollments[i]) &&
      r.1 == Promote(e.(enrollments := e.enrollments[i := MarkDropped(e.enrollments[i])]),
                     e.enrollments[i].courseId, now).1
  {
    match FindEnrollment(e.enrollments, id)
    case None => (EnrollmentNotFound, e)
    case Some(i) =>
      if e.enrollments[i].status != Active then (NotActive, e)
      else
        var e1 := e.(enrollments := e.enrollments[i := MarkDropped(e.enrollments[i])]);
        (DroppedOk, Promote(e1, e.enrollments[i].courseId, now).1)
  }

  /**
   * A drop never leaves its course with more students than before, and
   * leaves it with exactly as many when a waiting student took the seat.
   * At most one enrollment row is added, and every other course keeps its count.
   */
  lemma DropPromotesAtMostOne(e: Engine, id: int, now: int)
    requires Drop(e, id, now).0 == DroppedOk
    ensures var i := FindEnrollment(e.enrollments, id).value;
      var c := e.enrollments[i].courseId;
      var r := Drop(e, id, now);
      var e1 := e.(enrollments := e.enrollments[i := MarkDropped(e.enrollments[i])]);
      |r.1.enrollments| <= |e.enrollments| + 1 &&
      EnrolledCount(r.1.enrollments, c) == EnrolledCount(e.enrollments, c) - (if Promote(e1, c, now).0 then 0 else 1) &&
      forall d :: d != c ==> EnrolledCount(r.1.enrollments, d) == EnrolledCount(e.enrollments, d)
  {
    var i := FindEnrollment(e.enrollments, id).value;
    var c := e.enrollments[i].courseId;
    var e1 := e.(enrollments := e.enrollments[i := MarkDropped(e.enrollments[i])]);
    DropFreesOneSeat(e.enrollments, i, c);
    PromoteFillsOneSeat(e1, c, now);
    forall d | d != c
      ensures EnrolledCount(e1.enrollments, d) == EnrolledCount(e.enrollments, d)
    {
      DropFreesOneSeat(e.enrollments, i, d);
    }
  }

  /** `_promote_from_queue` on the database. */
  method PromoteFromQueue(db: Database, courseId: int, now: int) returns (promoted: bool)
    modifies db`enrollments, db`nextEnrollmentId, db`queueItems
    ensures (promoted, Snapshot(db)) == Promote(old(Snapshot(db)), courseId, now)
  {
    if courseId !in db.courses || !CanEnrollStudent(db.courses[courseId], courseId, db.enrollments) {
      return false;
    }
    var found := FindQueue(db.queues, CourseQueueName(courseId));
    if found.None? {
      return false;
    }
    var next := NextWaiting(db.queueItems, found.value);
    if next.None? {
      return false;
    }
    var k := next.value;
    var userId := db.queueItems[k].userId;
    if userId !in db.students {
      // the commit fails on the foreign key and both writes are rolled back
      return false;
    }
    db.enrollments := db.enrollments + [NewEnrollment(db.nextEnrollmentId, userId, courseId, now)];
    db.nextEnrollmentId := db.nextEnrollmentId + 1;
    db.queueItems := db.queueItems[k := QueueModel.MarkCompleted(db.queueItems[k], now)];
    promoted := true;
  }

  /** `drop_enrollment` on the database. */
  method DropEnrollment(db: Database, id: int, now: int) returns (outcome: DropOutcome)
    modifies db`enrollments, db`nextEnrollmentId, db`queueItems
    ensures (outcome, Snapshot(db)) == Drop(old(Snapshot(db)), id, now)
  {
    var found := FindEnrollment(db.enrollments, id);
    if found.None? {
      return EnrollmentNotFound;
    }
    var i := found.value;
    if db.enrollments[i].status != Active {
      return NotActive;
    }
    var courseId := db.enrollments[i].courseId;
    db.enrollments := db.enrollments[i := MarkDropped(db.enrollments[i])];
    var promoted := PromoteFromQueue(db, courseId, now);
    outcome := DroppedOk;
  }
}
