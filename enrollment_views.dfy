/**
 * The read-only views of the enrollment engine
 * (app/services/enrollment_service.py): a student's waiting-list position, a
 * course's waiting list, the manager's summary of every course, and a
 * student's enrolled and queued courses. None of them writes a table.
 */
module EnrollmentViews {
  import opened Common
  import opened Text
  import opened CourseModel
  import opened QueueModel
  import opened EnrollmentService

  // ---------------------------------------------------------------------
  // get_student_queue_position
  // ---------------------------------------------------------------------

  /** The position of the student's WAITING item in the course's queue; `None` without queue or item. */
  function StudentQueuePosition(queues: seq<Queue>, items: seq<QueueItem>, studentId: int, courseId: int): (r: Option<int>)
    ensures FindQueue(queues, CourseQueueName(courseId)).None? ==> r.None?
    ensures r.Some? ==>
      var q := FindQueue(queues, CourseQueueName(courseId)).value;
      exists j :: 0 <= j < |items| && WaitingFor(q, studentId)(items[j]) && items[j].position == r.value
    ensures r.None? && FindQueue(queues, CourseQueueName(courseId)).Some? ==>
      var q := FindQueue(queues, CourseQueueName(courseId)).value;
      forall j :: 0 <= j < |items| ==> !WaitingFor(q, studentId)(items[j])
  {
    match FindQueue(queues, CourseQueueName(courseId))
    case None => None
    case Some(q) =>
      match FindWaiting(items, q, studentId)
      case None => None
      case Some(k) => Some(items[k].position)
  }

  /**
   * The position an enroll request reports is the one the position query
   * then returns: for a queued student, and for one refused as already waiting.
   */
  lemma EnrollReportsStoredPosition(e: Engine, studentId: int, courseId: int, now: int)
    ensures var r := Enroll(e, studentId, courseId, now);
      r.0.Queued? ==> StudentQueuePosition(r.1.queues, r.1.items, studentId, courseId) == Some(r.0.position)
    ensures var r := Enroll(e, studentId, courseId, now);
      r.0.Rejected? && r.0.why.AlreadyWaiting? ==>
        StudentQueuePosition(r.1.queues, r.1.items, studentId, courseId) == Some(r.0.why.position)
  {
    var r := Enroll(e, studentId, courseId, now);
    if r.0.Queued? {
      var q := WithCourseQueue(e.queues, courseId).1;
      var it := NewWaitingItem(q, studentId, courseId, r.0.position, now);
      FirstAppend(e.items, it, WaitingFor(q, studentId));
    }
  }

  // ---------------------------------------------------------------------
  // get_course_queue_info
  // ---------------------------------------------------------------------

  /** One row of `waiting_students`; the student's display name is not modelled. */
  datatype WaitingEntry = WaitingEntry(studentId: int, position: int, joinedAt: Option<int>, waitTimeMinutes: int)

  datatype QueueInfo = QueueInfo(waitingCount: nat, waitingStudents: seq<WaitingEntry>, needsNewClass: bool)

  /** The waiting count from which a new class is suggested. */
  const NewClassThreshold: nat := 5

  function Position(): QueueItem -> int {
    (it: QueueItem) => it.position
  }

  function EntryOf(it: QueueItem, now: int): WaitingEntry {
    WaitingEntry(it.userId, it.position, it.joinedAt, WaitTimeMinutes(it, now))
  }

  function Entries(its: seq<QueueItem>, now: int): (r: seq<WaitingEntry>)
    ensures |r| == |its| && forall a :: 0 <= a < |its| ==> r[a] == EntryOf(its[a], now)
  {
    if its == [] then [] else Entries(its[..|its| - 1], now) + [EntryOf(its[|its| - 1], now)]
  }

  /** The WAITING items of queue `q`, in ascending position (the query's `order_by(position)`). */
  function WaitingList(items: seq<QueueItem>, q: int): (r: seq<QueueItem>)
    ensures |r| == CurrentLength(items, q)
    ensures forall a, b :: 0 <= a < b < |r| ==> r[a].position <= r[b].position
    ensures forall a :: 0 <= a < |r| ==> WaitingIn(q)(r[a]) && r[a] in items
    ensures forall j :: 0 <= j < |items| && WaitingIn(q)(items[j]) ==> items[j] in r
  {
    var waiting := Filter(items, WaitingIn(q));
    var sorted := SortBy(waiting, Position());
    forall a | 0 <= a < |sorted| ensures sorted[a] in waiting {
      assert sorted[a] in multiset(sorted);
    }
    forall j | 0 <= j < |items| && WaitingIn(q)(items[j]) ensures items[j] in sorted {
      assert items[j] in multiset(waiting);
    }
    sorted
  }

  /** Every listed entry is a waiting item's, and every waiting item is listed. */
  lemma EntriesOfWaitingList(items: seq<QueueItem>, q: int, now: int)
    ensures var ws := Entries(WaitingList(items, q), now);
      forall a :: 0 <= a < |ws| ==> exists it :: it in items && WaitingIn(q)(it) && ws[a] == EntryOf(it, now)
    ensures var ws := Entries(WaitingList(items, q), now);
      forall j :: 0 <= j < |items| && WaitingIn(q)(items[j]) ==> EntryOf(items[j], now) in ws
  {
    var wl := WaitingList(items, q);
    var ws := Entries(wl, now);
    forall a | 0 <= a < |ws| ensures exists it :: it in items && WaitingIn(q)(it) && ws[a] == EntryOf(it, now) {
      assert wl[a] in items && WaitingIn(q)(wl[a]) && ws[a] == EntryOf(wl[a], now);
    }
    forall j | 0 <= j < |items| && WaitingIn(q)(items[j]) ensures EntryOf(items[j], now) in ws {
      var a :| 0 <= a < |wl| && wl[a] == items[j];
      assert ws[a] == EntryOf(items[j], now);
    }
  }

  /**
   * `get_course_queue_info`: the WAITING items of the course's queue in
   * ascending position, their number, and whether at least five wait; a
   * course without a queue has an empty list.
   */
  function CourseQueueInfo(queues: seq<Queue>, items: seq<QueueItem>, courseId: int, now: int): (r: QueueInfo)
    ensures FindQueue(queues, CourseQueueName(courseId)).None? ==> r == QueueInfo(0, [], false)
    ensures r.waitingCount == |r.waitingStudents|
    ensures r.needsNewClass <==> r.waitingCount >= NewClassThreshold
    ensures FindQueue(queues, CourseQueueName(courseId)).Some? ==>
      r.waitingCount == CurrentLength(items, FindQueue(queues, CourseQueueName(courseId)).value)
    ensures forall a, b :: 0 <= a < b < |r.waitingStudents| ==>
      r.waitingStudents[a].position <= r.waitingStudents[b].position
  {
    match FindQueue(queues, CourseQueueName(courseId))
    case None => QueueInfo(0, [], false)
    case Some(q) =>
      var entries := Entries(WaitingList(items, q), now);
      QueueInfo(|entries|, entries, |entries| >= NewClassThreshold)
  }

  /** The listed students are exactly the ones waiting in the course's queue. */
  lemma CourseQueueInfoListsWaiting(queues: seq<Queue>, items: seq<QueueItem>, courseId: int, now: int)
    requires FindQueue(queues, CourseQueueName(courseId)).Some?
    ensures var q := FindQueue(queues, CourseQueueName(courseId)).value;
      var ws := CourseQueueInfo(queues, items, courseId, now).waitingStudents;
      (forall a :: 0 <= a < |ws| ==> exists it :: it in items && WaitingIn(q)(it) && ws[a] == EntryOf(it, now)) &&
      (forall j :: 0 <= j < |items| && WaitingIn(q)(items[j]) ==> EntryOf(items[j], now) in ws)
  {
    EntriesOfWaitingList(items, FindQueue(queues, CourseQueueName(courseId)).value, now);
  }

  // ---------------------------------------------------------------------
  // get_all_course_queues_summary
  // ---------------------------------------------------------------------

  datatype CourseSummary = CourseSummary(
    courseId: int,
    name: string,
    code: string,
    capacity: int,
    enrolledCount: nat,
    availableSlots: nat,
    waitingCount: nat,
    needsNewClass: bool)

  /** One course's row of the manager's summary, read off the course row and the engine's tables. */
  function SummaryOf(e: Engine, courseId: int, course: Course, now: int): (r: CourseSummary)
    ensures r.courseId == courseId && r.capacity == course.capacity
    ensures r.name == course.name && r.code == course.code
    ensures r.enrolledCount == EnrolledCount(e.enrollments, courseId)
    ensures r.availableSlots == 0 <==> r.enrolledCount >= r.capacity
    ensures r.availableSlots > 0 ==> r.enrolledCount + r.availableSlots == r.capacity
    ensures r.waitingCount == CourseQueueInfo(e.queues, e.items, courseId, now).waitingCount
    ensures r.needsNewClass <==> r.waitingCount >= NewClassThreshold
  {
    var info := CourseQueueInfo(e.queues, e.items, courseId, now);
    CourseSummary(courseId, course.name, course.code, course.capacity,
                  EnrolledCount(e.enrollments, courseId), AvailableSlots(course, courseId, e.enrollments),
                  info.waitingCount, info.needsNewClass)
  }

  /** `db.query(Course).all()`: the course rows with their ids, scanned in ascending id order. */
  method CoursesAscending(courses: map<int, Course>) returns (rows: seq<(int, Course)>)
    ensures forall a, b :: 0 <= a < b < |rows| ==> rows[a].0 < rows[b].0
    ensures forall a :: 0 <= a < |rows| ==> rows[a].0 in courses && rows[a].1 == courses[rows[a].0]
    ensures forall c :: c in courses ==> (c, courses[c]) in rows
  {
    var remaining := courses.Keys;
    rows := [];
    while remaining != {}
      invariant remaining <= courses.Keys
      invariant forall a :: 0 <= a < |rows| ==>
        rows[a].0 in courses && rows[a].1 == courses[rows[a].0] && rows[a].0 !in remaining
      invariant forall a, b :: 0 <= a < b < |rows| ==> rows[a].0 < rows[b].0
      invariant forall a, k :: 0 <= a < |rows| && k in remaining ==> rows[a].0 < k
      invariant forall c :: c in courses ==> c in remaining || (c, courses[c]) in rows
      decreases |remaining|
    {
      MinExists(remaining);
      var k :| k in remaining && forall j :: j in remaining ==> k <= j;
      rows := rows + [(k, courses[k])];
      remaining := remaining - {k};
    }
  }

  /** The summary of one course row. */
  function SummaryRow(e: Engine, now: int): ((int, Course)) -> CourseSummary {
    (p: (int, Course)) => SummaryOf(e, p.0, p.1, now)
  }

  /**
   * `get_all_course_queues_summary`: one summary per course, appended while
   * scanning the course table in ascending id order.
   */
  method AllCourseQueuesSummary(e: Engine, now: int) returns (r: seq<CourseSummary>)
    ensures forall a, b :: 0 <= a < b < |r| ==> r[a].courseId < r[b].courseId
    ensures forall a :: 0 <= a < |r| ==>
      r[a].courseId in e.courses && r[a] == SummaryOf(e, r[a].courseId, e.courses[r[a].courseId], now)
    ensures forall c :: c in e.courses ==> exists a :: 0 <= a < |r| && r[a].courseId == c
  {
    var courses := CoursesAscending(e.courses);
    var row := SummaryRow(e, now);
    r := [];
    for i := 0 to |courses|
      invariant r == MapSeq(row, courses[..i])
    {
      MapSeqStep(row, courses, i);
      r := r + [row(courses[i])];
    }
    assert courses[..|courses|] == courses;
    SummariesFollowCourses(e, now, courses, r);
  }

  /** Summaries made one per course row, in the order of ascending ids that cover the table. */
  lemma SummariesFollowCourses(e: Engine, now: int, courses: seq<(int, Course)>, r: seq<CourseSummary>)
    requires forall a, b :: 0 <= a < b < |courses| ==> courses[a].0 < courses[b].0
    requires forall a :: 0 <= a < |courses| ==> courses[a].0 in e.courses && courses[a].1 == e.courses[courses[a].0]
    requires forall c :: c in e.courses ==> (c, e.courses[c]) in courses
    requires r == MapSeq(SummaryRow(e, now), courses)
    ensures forall a, b :: 0 <= a < b < |r| ==> r[a].courseId < r[b].courseId
    ensures forall a :: 0 <= a < |r| ==>
      r[a].courseId in e.courses && r[a] == SummaryOf(e, r[a].courseId, e.courses[r[a].courseId], now)
    ensures forall c :: c in e.courses ==> exists a :: 0 <= a < |r| && r[a].courseId == c
  {
    MapSeqEntries(SummaryRow(e, now), courses);
    assert forall a :: 0 <= a < |r| ==> r[a] == SummaryOf(e, courses[a].0, courses[a].1, now);
    forall c | c in e.courses ensures exists a :: 0 <= a < |r| && r[a].courseId == c {
      var a :| 0 <= a < |courses| && courses[a] == (c, e.courses[c]);
      assert r[a].courseId == c;
    }
  }

  // ---------------------------------------------------------------------
  // get_student_courses_and_queues
  // ---------------------------------------------------------------------

  /** A row of `enrolled_courses`; the teacher's display name is not modelled. */
  datatype EnrolledCourse = EnrolledCourse(enrollmentId: int, courseId: int, name: string, code: string, enrollmentDate: Option<int>)

  /** A row of `queued_courses`; the queue item's id is its index. */
  datatype QueuedCourse = QueuedCourse(
    queueItemId: nat,
    courseId: int,
    name: string,
    code: string,
    position: int,
    joinedAt: Option<int>,
    waitTimeMinutes: int)

  datatype StudentCourses = StudentCourses(enrolled: seq<EnrolledCourse>, queued: seq<QueuedCourse>)

  function ActiveFor(studentId: int): Enrollment -> bool {
    (en: Enrollment) => en.studentId == studentId && en.status == Active
  }

  function EnrolledEntries(es: seq<Enrollment>, courses: map<int, Course>): (r: seq<EnrolledCourse>)
    requires forall i :: 0 <= i < |es| ==> es[i].courseId in courses
    ensures |r| == |es|
    ensures forall i :: 0 <= i < |es| ==>
      r[i] == EnrolledCourse(es[i].id, es[i].courseId, courses[es[i].courseId].name,
                             courses[es[i].courseId].code, es[i].enrolledAt)
  {
    if es == [] then []
    else
      var x := es[|es| - 1];
      EnrolledEntries(es[..|es| - 1], courses) +
        [EnrolledCourse(x.id, x.courseId, courses[x.courseId].name, courses[x.courseId].code, x.enrolledAt)]
  }

  /**
   * The `enrolled_courses` list: one row per ACTIVE enrollment of the student.
   * Reading the name of a course row that does not exist raises, and the
   * whole view then falls back to empty lists (`None` here).
   */
  function EnrolledCourses(es: seq<Enrollment>, courses: map<int, Course>, studentId: int): (r: Option<seq<EnrolledCourse>>)
    ensures r.None? <==> exists i :: 0 <= i < |es| && ActiveFor(studentId)(es[i]) && es[i].courseId !in courses
    ensures r.Some? ==> |r.value| == Count(es, ActiveFor(studentId))
    ensures r.Some? ==> forall a :: 0 <= a < |r.value| ==>
      r.value[a].courseId in courses && r.value[a].name == courses[r.value[a].courseId].name &&
      r.value[a].code == courses[r.value[a].courseId].code &&
      exists i :: 0 <= i < |es| && ActiveFor(studentId)(es[i]) && r.value[a].enrollmentId == es[i].id &&
        r.value[a].courseId == es[i].courseId && r.value[a].enrollmentDate == es[i].enrolledAt
    ensures r.Some? ==>
      var idx := FilterIndices(es, ActiveFor(studentId));
      |idx| == |r.value| &&
      forall a :: 0 <= a < |r.value| ==>
        r.value[a].enrollmentId == es[idx[a]].id && r.value[a].courseId == es[idx[a]].courseId &&
        r.value[a].enrollmentDate == es[idx[a]].enrolledAt
    ensures r.Some? ==> forall i :: 0 <= i < |es| && ActiveFor(studentId)(es[i]) ==>
      es[i].courseId in courses &&
      EnrolledCourse(es[i].id, es[i].courseId, courses[es[i].courseId].name, courses[es[i].courseId].code,
                     es[i].enrolledAt) in r.value
  {
    var act := Filter(es, ActiveFor(studentId));
    if exists a :: 0 <= a < |act| && act[a].courseId !in courses then
      ghost var a :| 0 <= a < |act| && act[a].courseId !in courses;
      assert act[a] in es;
      None
    else
      var r := EnrolledEntries(act, courses);
      assert forall a :: 0 <= a < |r| ==> act[a] in es;
      assert forall i :: 0 <= i < |es| && ActiveFor(studentId)(es[i]) ==> es[i] in act;
      Some(r)
  }

  /**
   * What the loop of `get_student_courses_and_queues` demands of a listed
   * item: it is the student's, WAITING, its queue row exists, and the queue's
   * name reads as the id of an existing course.
   */
  predicate Listed(e: Engine, studentId: int, x: QueuedCourse) {
    x.queueItemId < |e.items| &&
    var it := e.items[x.queueItemId];
    it.userId == studentId && it.status == Waiting && 0 <= it.queueId < |e.queues| &&
    CourseIdOfQueueName(e.queues[it.queueId].name) == Some(x.courseId) &&
    x.courseId in e.courses && x.position == it.position
  }

  /** The `queued_courses` row for item `j`, or `None` when the loop skips it. */
  function QueuedEntryAt(e: Engine, studentId: int, now: int, j: nat): (r: Option<QueuedCourse>)
    requires j < |e.items|
    ensures r.Some? ==> r.value.queueItemId == j && Listed(e, studentId, r.value)
    ensures (e.items[j].userId == studentId && e.items[j].status == Waiting && 0 <= e.items[j].queueId < |e.queues| &&
             CourseIdOfQueueName(e.queues[e.items[j].queueId].name).Some? &&
             CourseIdOfQueueName(e.queues[e.items[j].queueId].name).value in e.courses) ==> r.Some?
  {
    var it := e.items[j];
    if it.userId == studentId && it.status == Waiting && 0 <= it.queueId < |e.queues| then
      match CourseIdOfQueueName(e.queues[it.queueId].name)
      case None => None
      case Some(c) =>
        if c in e.courses then
          Some(QueuedCourse(j, c, e.courses[c].name, e.courses[c].code, it.position, it.joinedAt, WaitTimeMinutes(it, now)))
        else None
    else None
  }

  /**
   * The `queued_courses` list over the first `n` items: one row per WAITING
   * item of the student whose queue's name is a course queue name of an
   * existing course, in item order.
   */
  function QueuedCourses(e: Engine, studentId: int, now: int, n: nat): (r: seq<QueuedCourse>)
    requires n <= |e.items|
    ensures |r| <= n
  {
    if n == 0 then []
    else
      var init := QueuedCourses(e, studentId, now, n - 1);
      match QueuedEntryAt(e, studentId, now, n - 1)
      case None => init
      case Some(x) => init + [x]
  }

  /** The list over the first `n` items extends the list over the first `n - 1` by item `n - 1`'s row, if any. */
  lemma QueuedCoursesStep(e: Engine, studentId: int, now: int, n: nat)
    requires 0 < n <= |e.items|
    ensures var init := QueuedCourses(e, studentId, now, n - 1);
      var x := QueuedEntryAt(e, studentId, now, n - 1);
      QueuedCourses(e, studentId, now, n) == if x.Some? then init + [x.value] else init
  {
  }

  /** Every listed row is a listed item's. */
  lemma {:induction false} QueuedCoursesSound(e: Engine, studentId: int, now: int, n: nat)
    requires n <= |e.items|
    ensures var r := QueuedCourses(e, studentId, now, n);
      forall a :: 0 <= a < |r| ==> Listed(e, studentId, r[a])
  {
    if n > 0 {
      QueuedCoursesSound(e, studentId, now, n - 1);
      var init := QueuedCourses(e, studentId, now, n - 1);
      var r := QueuedCourses(e, studentId, now, n);
      QueuedCoursesStep(e, studentId, now, n);
      forall a | 0 <= a < |r|
        ensures Listed(e, studentId, r[a])
      {
        if a < |init| {
          assert r[a] == init[a];
        }
      }
    }
  }

  /** The rows come from the first `n` items and follow the item order. */
  lemma {:induction false} QueuedCoursesOrdered(e: Engine, studentId: int, now: int, n: nat)
    requires n <= |e.items|
    ensures var r := QueuedCourses(e, studentId, now, n);
      forall a :: 0 <= a < |r| ==> r[a].queueItemId < n
    ensures var r := QueuedCourses(e, studentId, now, n);
      forall a, b :: 0 <= a < b < |r| ==> r[a].queueItemId < r[b].queueItemId
  {
    if n > 0 {
      QueuedCoursesOrdered(e, studentId, now, n - 1);
      var init := QueuedCourses(e, studentId, now, n - 1);
      var r := QueuedCourses(e, studentId, now, n);
      QueuedCoursesStep(e, studentId, now, n);
      forall a | 0 <= a < |r|
        ensures r[a].queueItemId < n && (a < |init| ==> r[a] == init[a])
        ensures a == |init| ==> r[a].queueItemId == n - 1
      {
        if a < |init| {
          assert r[a] == init[a];
        }
      }
    }
  }

  ghost predicate ListsItem(r: seq<QueuedCourse>, j: nat, courseId: int) {
    exists a :: 0 <= a < |r| && r[a].queueItemId == j && r[a].courseId == courseId
  }

  /** Every waiting item of the student in an existing course's queue is listed, with that course. */
  lemma QueuedCoursesComplete(e: Engine, studentId: int, now: int, j: nat, courseId: int)
    requires j < |e.items|
    requires e.items[j].userId == studentId && e.items[j].status == Waiting
    requires 0 <= e.items[j].queueId < |e.queues| && e.queues[e.items[j].queueId].name == CourseQueueName(courseId)
    requires courseId in e.courses
    ensures ListsItem(QueuedCourses(e, studentId, now, |e.items|), j, courseId)
  {
    CourseQueueItemListed(e, studentId, now, j, courseId);
    QueuedCoursesLast(e, studentId, now, j + 1);
    QueuedCoursesKeepAll(e, studentId, now, j + 1, |e.items|, j, courseId);
  }

  /** A row in the list over the first `m` items stays in the list over any first `n >= m` items. */
  lemma {:induction false} QueuedCoursesKeepAll(e: Engine, studentId: int, now: int, m: nat, n: nat, j: nat, courseId: int)
    requires m <= n <= |e.items|
    requires ListsItem(QueuedCourses(e, studentId, now, m), j, courseId)
    ensures ListsItem(QueuedCourses(e, studentId, now, n), j, courseId)
    decreases n - m
  {
    if m < n {
      QueuedCoursesKeep(e, studentId, now, m + 1, j, courseId);
      QueuedCoursesKeepAll(e, studentId, now, m + 1, n, j, courseId);
    }
  }

  /** A waiting item of the student in an existing course's queue makes a row naming that course. */
  lemma CourseQueueItemListed(e: Engine, studentId: int, now: int, j: nat, courseId: int)
    requires j < |e.items|
    requires e.items[j].userId == studentId && e.items[j].status == Waiting
    requires 0 <= e.items[j].queueId < |e.queues| && e.queues[e.items[j].queueId].name == CourseQueueName(courseId)
    requires courseId in e.courses
    ensures QueuedEntryAt(e, studentId, now, j).Some? && QueuedEntryAt(e, studentId, now, j).value.courseId == courseId
  {
    QueueNameRoundTrip(courseId);
  }

  /** Item `n - 1`, when it is listed, is the last row of the list over the first `n` items. */
  lemma QueuedCoursesLast(e: Engine, studentId: int, now: int, n: nat)
    requires 0 < n <= |e.items| && QueuedEntryAt(e, studentId, now, n - 1).Some?
    ensures ListsItem(QueuedCourses(e, studentId, now, n), n - 1, QueuedEntryAt(e, studentId, now, n - 1).value.courseId)
  {
    var r := QueuedCourses(e, studentId, now, n);
    assert r[|r| - 1] == QueuedEntryAt(e, studentId, now, n - 1).value;
  }

  /** A row listed over the first `n - 1` items stays listed over the first `n`. */
  lemma QueuedCoursesKeep(e: Engine, studentId: int, now: int, n: nat, j: nat, courseId: int)
    requires 0 < n <= |e.items| && ListsItem(QueuedCourses(e, studentId, now, n - 1), j, courseId)
    ensures ListsItem(QueuedCourses(e, studentId, now, n), j, courseId)
  {
    var init := QueuedCourses(e, studentId, now, n - 1);
    var r := QueuedCourses(e, studentId, now, n);
    var a :| 0 <= a < |init| && init[a].queueItemId == j && init[a].courseId == courseId;
    assert r[a] == init[a];
  }

  /** `get_student_courses_and_queues`: the enrolled list, and the queued list built by a loop over the items. */
  method StudentCoursesAndQueues(e: Engine, studentId: int, now: int) returns (r: StudentCourses)
    ensures EnrolledCourses(e.enrollments, e.courses, studentId).None? ==> r == StudentCourses([], [])
    ensures EnrolledCourses(e.enrollments, e.courses, studentId).Some? ==>
      r.enrolled == EnrolledCourses(e.enrollments, e.courses, studentId).value &&
      r.queued == QueuedCourses(e, studentId, now, |e.items|)
  {
    var enrolled := EnrolledCourses(e.enrollments, e.courses, studentId);
    if enrolled.None? {
      return StudentCourses([], []);
    }
    var queued: seq<QueuedCourse> := [];
    var j := 0;
    while j < |e.items|
      invariant 0 <= j <= |e.items|
      invariant queued == QueuedCourses(e, studentId, now, j)
    {
      var row := QueuedEntryAt(e, studentId, now, j);
      if row.Some? {
        queued := queued + [row.value];
      }
      j := j + 1;
    }
    r := StudentCourses(enrolled.value, queued);
  }
}
