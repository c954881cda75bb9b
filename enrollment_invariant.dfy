/**
 * What the enrollment engine keeps true of its tables. Enroll, drop and
 * promote each preserve every part of `EngineInvariant`. In particular, no
 * course ever holds more ACTIVE enrollments than its capacity.
 */
module EnrollmentInvariant {
  import opened Common
  import opened CourseModel
  import opened QueueModel
  import opened EnrollmentService

  /** Every queue item belongs to an existing queue. */
  ghost predicate ItemsInQueues(e: Engine) {
    forall j :: 0 <= j < |e.items| ==> e.items[j].queueId < |e.queues|
  }

  /** No course has more ACTIVE enrollments than seats. */
  ghost predicate WithinCapacity(e: Engine) {
    forall c :: c in e.courses ==> EnrolledCount(e.enrollments, c) <= e.courses[c].capacity
  }

  /** A student holds at most one ACTIVE enrollment per course. */
  ghost predicate OneActivePerPair(e: Engine) {
    forall i, j :: 0 <= i < j < |e.enrollments| && IsActive(e.enrollments[i]) && IsActive(e.enrollments[j]) ==>
      e.enrollments[i].studentId != e.enrollments[j].studentId ||
      e.enrollments[i].courseId != e.enrollments[j].courseId
  }

  /** Within one queue, WAITING items have distinct users and distinct positions. */
  ghost predicate DistinctWaiters(e: Engine) {
    forall i, j :: (0 <= i < j < |e.items| && e.items[i].status == Waiting && e.items[j].status == Waiting &&
                    e.items[i].queueId == e.items[j].queueId) ==>
      e.items[i].userId != e.items[j].userId && e.items[i].position != e.items[j].position
  }

  /** Nobody waits in the queue of a course they are actively enrolled in. */
  ghost predicate WaitersNotEnrolled(e: Engine) {
    forall i, j :: (0 <= i < |e.enrollments| && 0 <= j < |e.items| &&
                    IsActive(e.enrollments[i]) && e.items[j].status == Waiting &&
                    FindQueue(e.queues, CourseQueueName(e.enrollments[i].courseId)) == Some(e.items[j].queueId)) ==>
      e.items[j].userId != e.enrollments[i].studentId
  }

  /** Enrollment ids are distinct and below the next one to be handed out. */
  ghost predicate FreshIds(e: Engine) {
    (forall i :: 0 <= i < |e.enrollments| ==> e.enrollments[i].id < e.nextEnrollmentId) &&
    (forall i, j :: 0 <= i < j < |e.enrollments| ==> e.enrollments[i].id != e.enrollments[j].id)
  }

  ghost predicate EngineInvariant(e: Engine) {
    ItemsInQueues(e) && WithinCapacity(e) && OneActivePerPair(e) &&
    DistinctWaiters(e) && WaitersNotEnrolled(e) && FreshIds(e)
  }

  /** Creating a course's queue keeps the invariant: no item can be in the new queue yet. */
  lemma QueueCreationPreserves(e: Engine, courseId: int)
    requires EngineInvariant(e)
    ensures EngineInvariant(e.(queues := WithCourseQueue(e.queues, courseId).0))
  {
    var e1 := e.(queues := WithCourseQueue(e.queues, courseId).0);
    if FindQueue(e.queues, CourseQueueName(courseId)).None? {
      forall i, j | 0 <= i < |e1.enrollments| && 0 <= j < |e1.items| &&
          IsActive(e1.enrollments[i]) && e1.items[j].status == Waiting &&
          FindQueue(e1.queues, CourseQueueName(e1.enrollments[i].courseId)) == Some(e1.items[j].queueId)
        ensures e1.items[j].userId != e1.enrollments[i].studentId
      {
        // the new queue's id is |e.queues|, which no item refers to
        var c := e.enrollments[i].courseId;
        if c != courseId {
          if CourseQueueName(c) == CourseQueueName(courseId) {
            CourseQueueNameInjective(c, courseId);
          }
          WithCourseQueueOthers(e.queues, courseId, CourseQueueName(c));
        }
      }
    }
  }

  /**
   * Adding an ACTIVE enrollment of a student who is neither enrolled in nor
   * waiting for the course, into a free seat, keeps the invariant.
   */
  lemma AdmitPreserves(e: Engine, studentId: int, courseId: int, now: int)
    requires EngineInvariant(e)
    requires courseId in e.courses && EnrolledCount(e.enrollments, courseId) < e.courses[courseId].capacity
    requires FindActive(e.enrollments, studentId, courseId).None?
    requires FindQueue(e.queues, CourseQueueName(courseId)).Some? ==>
      FindWaiting(e.items, FindQueue(e.queues, CourseQueueName(courseId)).value, studentId).None?
    ensures EngineInvariant(e.(enrollments := e.enrollments + [NewEnrollment(e.nextEnrollmentId, studentId, courseId, now)],
                               nextEnrollmentId := e.nextEnrollmentId + 1))
  {
    var en := NewEnrollment(e.nextEnrollmentId, studentId, courseId, now);
    var e1 := e.(enrollments := e.enrollments + [en], nextEnrollmentId := e.nextEnrollmentId + 1);
    AdmitWithinCapacity(e, en, e1);
    AdmitOneActive(e, en, e1);
    AdmitNotWaiting(e, en, e1);
    AdmitFreshId(e, en);
    assert ItemsInQueues(e1) && DistinctWaiters(e1) by {
      assert e1.items == e.items && e1.queues == e.queues;
    }
  }

  lemma AdmitNotWaiting(e: Engine, en: Enrollment, e1: Engine)
    requires WaitersNotEnrolled(e)
    requires e1.enrollments == e.enrollments + [en] && e1.items == e.items && e1.queues == e.queues
    requires FindQueue(e.queues, CourseQueueName(en.courseId)).Some? ==>
      FindWaiting(e.items, FindQueue(e.queues, CourseQueueName(en.courseId)).value, en.studentId).None?
    ensures WaitersNotEnrolled(e1)
  {
    var es := e1.enrollments;
    forall i, j | 0 <= i < |es| && 0 <= j < |e.items| && IsActive(es[i]) && e.items[j].status == Waiting &&
        FindQueue(e.queues, CourseQueueName(es[i].courseId)) == Some(e.items[j].queueId)
      ensures e.items[j].userId != es[i].studentId
    {
      if i < |e.enrollments| {
        assert es[i] == e.enrollments[i];
      }
    }
  }

  lemma AdmitFreshId(e: Engine, en: Enrollment)
    requires FreshIds(e) && en.id == e.nextEnrollmentId
    ensures FreshIds(e.(enrollments := e.enrollments + [en], nextEnrollmentId := e.nextEnrollmentId + 1))
  {
    var es := e.enrollments + [en];
    forall i, j | 0 <= i < j < |es| ensures es[i].id != es[j].id {
      assert es[i] == e.enrollments[i];
      if j < |e.enrollments| {
        assert es[j] == e.enrollments[j];
      }
    }
  }

  lemma AdmitWithinCapacity(e: Engine, en: Enrollment, e1: Engine)
    requires WithinCapacity(e)
    requires en.courseId in e.courses && EnrolledCount(e.enrollments, en.courseId) < e.courses[en.courseId].capacity
    requires e1.enrollments == e.enrollments + [en] && e1.courses == e.courses
    ensures WithinCapacity(e1)
  {
    forall c | c in e.courses ensures EnrolledCount(e.enrollments + [en], c) <= e.courses[c].capacity {
      AddTakesSeat(e.enrollments, en, c);
    }
  }

  lemma AdmitOneActive(e: Engine, en: Enrollment, e1: Engine)
    requires OneActivePerPair(e)
    requires FindActive(e.enrollments, en.studentId, en.courseId).None?
    requires e1.enrollments == e.enrollments + [en]
    ensures OneActivePerPair(e1)
  {
    var es := e1.enrollments;
    forall i, j | 0 <= i < j < |es| && IsActive(es[i]) && IsActive(es[j])
      ensures es[i].studentId != es[j].studentId || es[i].courseId != es[j].courseId
    {
      assert es[i] == e.enrollments[i];
      if j < |e.enrollments| {
        assert es[j] == e.enrollments[j];
      }
    }
  }

  /** Marking a queue item COMPLETED keeps the invariant: it only leaves the waiting items. */
  lemma CompleteItemPreserves(e: Engine, k: nat, now: int)
    requires EngineInvariant(e) && k < |e.items|
    ensures EngineInvariant(e.(items := e.items[k := QueueModel.MarkCompleted(e.items[k], now)]))
  {
    var e1 := e.(items := e.items[k := QueueModel.MarkCompleted(e.items[k], now)]);
    forall i, j | 0 <= i < j < |e1.items| && e1.items[i].status == Waiting && e1.items[j].status == Waiting &&
        e1.items[i].queueId == e1.items[j].queueId
      ensures e1.items[i].userId != e1.items[j].userId && e1.items[i].position != e1.items[j].position
    {
      assert e1.items[i] == e.items[i] && e1.items[j] == e.items[j];
    }
    forall i, j | 0 <= i < |e1.enrollments| && 0 <= j < |e1.items| &&
        IsActive(e1.enrollments[i]) && e1.items[j].status == Waiting &&
        FindQueue(e1.queues, CourseQueueName(e1.enrollments[i].courseId)) == Some(e1.items[j].queueId)
      ensures e1.items[j].userId != e1.enrollments[i].studentId
    {
      assert e1.items[j] == e.items[j];
    }
  }

  /** Queueing a student who is neither enrolled nor waiting, behind everyone waiting, keeps the invariant. */
  lemma QueuePreserves(e: Engine, studentId: int, courseId: int, q: nat, position: int, now: int)
    requires EngineInvariant(e)
    requires FindActive(e.enrollments, studentId, courseId).None?
    requires FindQueue(e.queues, CourseQueueName(courseId)) == Some(q)
    requires FindWaiting(e.items, q, studentId).None?
    requires forall i :: 0 <= i < |e.items| && WaitingIn(q)(e.items[i]) ==> e.items[i].position < position
    ensures EngineInvariant(e.(items := e.items + [NewWaitingItem(q, studentId, courseId, position, now)]))
  {
    var it := NewWaitingItem(q, studentId, courseId, position, now);
    var e1 := e.(items := e.items + [it]);
    var n := |e.items|;
    forall i, j | 0 <= i < j < |e1.items| && e1.items[i].status == Waiting && e1.items[j].status == Waiting &&
        e1.items[i].queueId == e1.items[j].queueId
      ensures e1.items[i].userId != e1.items[j].userId && e1.items[i].position != e1.items[j].position
    {
      if j == n {
        assert e1.items[i] == e.items[i] && WaitingIn(q)(e.items[i]);
      } else {
        assert e1.items[i] == e.items[i] && e1.items[j] == e.items[j];
      }
    }
    forall i, j | 0 <= i < |e1.enrollments| && 0 <= j < |e1.items| &&
        IsActive(e1.enrollments[i]) && e1.items[j].status == Waiting &&
        FindQueue(e1.queues, CourseQueueName(e1.enrollments[i].courseId)) == Some(e1.items[j].queueId)
      ensures e1.items[j].userId != e1.enrollments[i].studentId
    {
      if j == n {
        var c := e.enrollments[i].courseId;
        assert e.queues[q].name == CourseQueueName(c) == CourseQueueName(courseId);
        CourseQueueNameInjective(c, courseId);
      } else {
        assert e1.items[j] == e.items[j];
      }
    }
  }

  /** `enroll_student` keeps the invariant, whatever its outcome. */
  lemma EnrollPreserves(e: Engine, studentId: int, courseId: int, now: int)
    requires EngineInvariant(e)
    ensures EngineInvariant(Enroll(e, studentId, courseId, now).1)
  {
    if studentId in e.students && courseId in e.courses && FindActive(e.enrollments, studentId, courseId).None? {
      var (queues, q) := WithCourseQueue(e.queues, courseId);
      var e1 := e.(queues := queues);
      QueueCreationPreserves(e, courseId);
      if FindWaiting(e.items, q, studentId).None? {
        if CanEnrollStudent(e.courses[courseId], courseId, e.enrollments) {
          AdmitPreserves(e1, studentId, courseId, now);
        } else {
          QueuePreserves(e1, studentId, courseId, q, NextPosition(e.items, q), now);
        }
      }
    }
  }

  /**
   * `_promote_from_queue` keeps the invariant: the promoted student was
   * waiting, so was not enrolled, and waits nowhere else in that queue.
   */
  lemma PromotePreserves(e: Engine, courseId: int, now: int)
    requires EngineInvariant(e)
    ensures EngineInvariant(Promote(e, courseId, now).1)
  {
    if PromotionCandidate(e, courseId).Some? {
      var k := PromotionCandidate(e, courseId).value;
      var q := FindQueue(e.queues, CourseQueueName(courseId)).value;
      var u := e.items[k].userId;
      var e2 := e.(items := e.items[k := QueueModel.MarkCompleted(e.items[k], now)]);
      CompleteItemPreserves(e, k, now);
      CandidateNotEnrolled(e, courseId);
      CandidateWaitsOnce(e, courseId, now);
      AdmitPreserves(e2, u, courseId, now);
      assert Promote(e, courseId, now).1 ==
        e2.(enrollments := e.enrollments + [NewEnrollment(e.nextEnrollmentId, u, courseId, now)],
            nextEnrollmentId := e.nextEnrollmentId + 1);
    }
  }

  /** The student about to be promoted holds no ACTIVE enrollment in the course. */
  lemma CandidateNotEnrolled(e: Engine, courseId: int)
    requires WaitersNotEnrolled(e) && PromotionCandidate(e, courseId).Some?
    ensures FindActive(e.enrollments, e.items[PromotionCandidate(e, courseId).value].userId, courseId).None?
  {
    var k := PromotionCandidate(e, courseId).value;
    var q := FindQueue(e.queues, CourseQueueName(courseId)).value;
    forall i | 0 <= i < |e.enrollments| && IsActive(e.enrollments[i]) && e.enrollments[i].courseId == courseId
      ensures e.enrollments[i].studentId != e.items[k].userId
    {
      assert e.items[k].status == Waiting && e.items[k].queueId == q;
    }
  }

  /** Once its item is COMPLETED, the promoted student no longer waits in the course's queue. */
  lemma CandidateWaitsOnce(e: Engine, courseId: int, now: int)
    requires DistinctWaiters(e) && PromotionCandidate(e, courseId).Some?
    ensures var k := PromotionCandidate(e, courseId).value;
      FindWaiting(e.items[k := QueueModel.MarkCompleted(e.items[k], now)],
                  FindQueue(e.queues, CourseQueueName(courseId)).value, e.items[k].userId).None?
  {
    var k := PromotionCandidate(e, courseId).value;
    var q := FindQueue(e.queues, CourseQueueName(courseId)).value;
    var items := e.items[k := QueueModel.MarkCompleted(e.items[k], now)];
    forall j | 0 <= j < |items| ensures !WaitingFor(q, e.items[k].userId)(items[j]) {
      assert e.items[k].status == Waiting && e.items[k].queueId == q;
    }
  }

  /** Dropping an ACTIVE enrollment keeps the invariant before any promotion. */
  lemma MarkDroppedPreserves(e: Engine, i: nat)
    requires EngineInvariant(e) && i < |e.enrollments| && IsActive(e.enrollments[i])
    ensures EngineInvariant(e.(enrollments := e.enrollments[i := MarkDropped(e.enrollments[i])]))
  {
    var e1 := e.(enrollments := e.enrollments[i := MarkDropped(e.enrollments[i])]);
    forall c | c in e1.courses ensures EnrolledCount(e1.enrollments, c) <= e1.courses[c].capacity {
      DropFreesOneSeat(e.enrollments, i, c);
    }
    forall a, b | 0 <= a < b < |e1.enrollments| && IsActive(e1.enrollments[a]) && IsActive(e1.enrollments[b])
      ensures e1.enrollments[a].studentId != e1.enrollments[b].studentId ||
              e1.enrollments[a].courseId != e1.enrollments[b].courseId
    {
      assert a != i && b != i;
      assert e1.enrollments[a] == e.enrollments[a] && e1.enrollments[b] == e.enrollments[b];
    }
    forall a, j | 0 <= a < |e1.enrollments| && 0 <= j < |e1.items| &&
        IsActive(e1.enrollments[a]) && e1.items[j].status == Waiting &&
        FindQueue(e1.queues, CourseQueueName(e1.enrollments[a].courseId)) == Some(e1.items[j].queueId)
      ensures e1.items[j].userId != e1.enrollments[a].studentId
    {
      assert a != i && e1.enrollments[a] == e.enrollments[a];
    }
  }

  /** `drop_enrollment` keeps the invariant, whatever its outcome. */
  lemma DropPreserves(e: Engine, id: int, now: int)
    requires EngineInvariant(e)
    ensures EngineInvariant(Drop(e, id, now).1)
  {
    if Drop(e, id, now).0 == DroppedOk {
      var i := FindEnrollment(e.enrollments, id).value;
      MarkDroppedPreserves(e, i);
      PromotePreserves(e.(enrollments := e.enrollments[i := MarkDropped(e.enrollments[i])]), e.enrollments[i].courseId, now);
    }
  }
}
