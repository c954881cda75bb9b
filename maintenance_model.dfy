/**
 * Maintenance tickets and their lifecycle (app/models/maintenance_task.py).
 * The lifecycle methods are functions from the old row to the new one.
 */
module MaintenanceModel {
  import opened Common

  datatype TaskPriority = Low | Medium | High | Urgent

  datatype TaskStatus = Pending | InProgress | Completed | Cancelled

  /** A row of `maintenance_tasks`; times are seconds. */
  datatype MaintenanceTask = MaintenanceTask(
    title: string,
    description: Option<string>,
    location: Option<string>,
    priority: TaskPriority,
    status: TaskStatus,
    assignedWorker: Option<int>,
    reportedBy: Option<int>,
    startedAt: Option<int>,
    completedAt: Option<int>,
    notes: Option<string>)

  predicate IsAssigned(t: MaintenanceTask) {
    t.assignedWorker.Some?
  }

  predicate IsCompleted(t: MaintenanceTask) {
    t.status == Completed
  }

  predicate IsPending(t: MaintenanceTask) {
    t.status == Pending
  }

  predicate IsInProgress(t: MaintenanceTask) {
    t.status == InProgress
  }

  /** At most one of the status predicates holds, and each mirrors its status. */
  lemma StatusPredicatesExclusive(t: MaintenanceTask)
    ensures !(IsPending(t) && IsInProgress(t)) && !(IsPending(t) && IsCompleted(t))
    ensures !(IsInProgress(t) && IsCompleted(t))
    ensures IsAssigned(t) <==> t.assignedWorker != None
  {
  }

  /** `start_task`: IN_PROGRESS; the start time is stamped only the first time. */
  function StartTask(t: MaintenanceTask, now: int): (r: MaintenanceTask)
    ensures r.status == InProgress
    ensures t.startedAt.Some? ==> r.startedAt == t.startedAt
    ensures t.startedAt.None? ==> r.startedAt == Some(now)
    ensures r.(status := t.status, startedAt := t.startedAt) == t
  {
    t.(status := InProgress, startedAt := if t.startedAt.Some? then t.startedAt else Some(now))
  }

  /** `complete_task`: COMPLETED; the completion time is stamped only the first time. */
  function CompleteTask(t: MaintenanceTask, now: int): (r: MaintenanceTask)
    ensures r.status == Completed
    ensures t.completedAt.Some? ==> r.completedAt == t.completedAt
    ensures t.completedAt.None? ==> r.completedAt == Some(now)
    ensures r.(status := t.status, completedAt := t.completedAt) == t
  {
    t.(status := Completed, completedAt := if t.completedAt.Some? then t.completedAt else Some(now))
  }

  /** `cancel_task`: CANCELLED, no timestamp touched. */
  function CancelTask(t: MaintenanceTask): (r: MaintenanceTask)
    ensures r.status == Cancelled && r.(status := t.status) == t
  {
    t.(status := Cancelled)
  }

  /** `assign_to_worker`: only the assignee changes; the status is kept. */
  function AssignToWorker(t: MaintenanceTask, worker: int): (r: MaintenanceTask)
    ensures IsAssigned(r) && r.assignedWorker == Some(worker)
    ensures r.status == t.status && r.(assignedWorker := t.assignedWorker) == t
  {
    t.(assignedWorker := Some(worker))
  }

  /** Completing twice keeps the first completion time. */
  lemma CompleteTwiceKeepsFirstStamp(t: MaintenanceTask, first: int, second: int)
    ensures CompleteTask(CompleteTask(t, first), second) == CompleteTask(t, first)
  {
  }

  /** Restarting a started task keeps its first start time. */
  lemma StartTwiceKeepsFirstStamp(t: MaintenanceTask, first: int, second: int)
    ensures StartTask(StartTask(t, first), second) == StartTask(t, first)
  {
  }
}
