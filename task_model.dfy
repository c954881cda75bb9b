/**
 * Course tasks and student submissions (app/models/task.py). A task carries
 * its `submissions` relationship as a sequence in table order. Grades are in
 * hundredths of a point; times are seconds.
 */
module TaskModel {
  import opened Common

  datatype Submission = Submission(
    studentId: int,
    submissionDate: Option<int>,
    text: Option<string>,
    grade: Option<int>,
    feedback: Option<string>)

  datatype Task = Task(
    title: string,
    courseId: int,
    dueDate: Option<int>,
    submissions: seq<Submission>)

  /** `Task.is_overdue`: only a task with a due date can be overdue. */
  predicate IsOverdue(t: Task, now: int) {
    t.dueDate.Some? && now > t.dueDate.value
  }

  /** `Task.submission_count`. */
  function SubmissionCount(t: Task): nat {
    |t.submissions|
  }

  /** `TaskSubmission.is_graded`. */
  predicate IsGraded(s: Submission) {
    s.grade.Some?
  }

  function Graded(): Submission -> bool {
    (s: Submission) => IsGraded(s)
  }

  /** `Task.graded_count`: the submissions that carry a grade, never more than there are. */
  function GradedCount(t: Task): (n: nat)
    ensures n <= SubmissionCount(t)
    ensures n == |set i: nat | i < |t.submissions| && t.submissions[i].grade.Some?|
    ensures n == SubmissionCount(t) <==> forall i :: 0 <= i < |t.submissions| ==> IsGraded(t.submissions[i])
  {
    var n := Count(t.submissions, Graded());
    assert Where(t.submissions, Graded()) == set i: nat | i < |t.submissions| && t.submissions[i].grade.Some?;
    CountAllGraded(t.submissions);
    n
  }

  lemma {:induction false} CountAllGraded(s: seq<Submission>)
    ensures Count(s, Graded()) == |s| <==> forall i :: 0 <= i < |s| ==> IsGraded(s[i])
  {
    if s != [] {
      var init := s[..|s| - 1];
      CountAllGraded(init);
      assert forall i :: 0 <= i < |init| ==> s[i] == init[i];
    }
  }

  /** `Task.get_submission_for_student`: the first submission of the student, if any. */
  function SubmissionFor(t: Task, studentId: int): (r: Option<nat>)
    ensures r.None? <==> forall i :: 0 <= i < |t.submissions| ==> t.submissions[i].studentId != studentId
    ensures r.Some? ==> r.value < |t.submissions| && t.submissions[r.value].studentId == studentId
    ensures r.Some? ==> forall i :: 0 <= i < r.value ==> t.submissions[i].studentId != studentId
  {
    FirstFrom(t.submissions, studentId, 0)
  }

  function FirstFrom(s: seq<Submission>, studentId: int, from: nat): (r: Option<nat>)
    requires from <= |s|
    ensures r.None? <==> forall i :: from <= i < |s| ==> s[i].studentId != studentId
    ensures r.Some? ==> from <= r.value < |s| && s[r.value].studentId == studentId
    ensures r.Some? ==> forall i :: from <= i < r.value ==> s[i].studentId != studentId
    decreases |s| - from
  {
    if from == |s| then None
    else if s[from].studentId == studentId then Some(from)
    else FirstFrom(s, studentId, from + 1)
  }

  /**
   * `TaskSubmission.was_late`: false when the task, its due date or the
   * submission date is missing; otherwise strictly after the due date.
   */
  predicate WasLate(s: Submission, task: Option<Task>) {
    task.Some? && task.value.dueDate.Some? && s.submissionDate.Some?
    && s.submissionDate.value > task.value.dueDate.value
  }

  /** Handing in exactly at the due time is on time. */
  lemma OnTimeAtDueDate(s: Submission, t: Task)
    requires t.dueDate.Some? && s.submissionDate == t.dueDate
    ensures !WasLate(s, Some(t))
  {
  }

  /** `TaskSubmission.assign_grade`: the grade is always set; empty feedback keeps the old one. */
  function AssignGrade(s: Submission, grade: int, feedback: string): (r: Submission)
    ensures IsGraded(r) && r.grade == Some(grade)
    ensures feedback != "" ==> r.feedback == Some(feedback)
    ensures feedback == "" ==> r.feedback == s.feedback
    ensures r.(grade := s.grade, feedback := s.feedback) == s
  {
    s.(grade := Some(grade), feedback := if feedback != "" then Some(feedback) else s.feedback)
  }
}
