/**
 * Maintenance tickets (app/services/maintenance_service.py): reporting a
 * ticket, assigning it, moving it through its statuses, appending notes and
 * the status counts. A ticket's id is its index in the table. Each method is
 * specified by a function from the old table to the outcome and the new table.
 */
module MaintenanceService {
  import opened Common
  import opened Text
  import opened UserModel
  import opened MaintenanceModel
  import opened Session

  datatype MaintenanceError = TitleRequired | InvalidWorker | ConstraintViolation

  /** A call's result: the ticket's id, no such ticket (`None` in the source), or the error it raises. */
  datatype TaskOutcome = Done(id: nat) | NoSuchTask | Failed(why: MaintenanceError)

  /** The worker check of `assign_task`: a user with that id whose role is WORKER. */
  predicate IsWorkerUser(users: seq<User>, id: int) {
    exists i :: 0 <= i < |users| && users[i].id == id && users[i].role == Worker
  }

  /** Python `location.strip() if location else None`. */
  function CleanLocation(location: Option<string>): (r: Option<string>)
    ensures location.None? || location == Some("") ==> r.None?
    ensures location.Some? && location.value != "" ==> r == Some(Strip(location.value))
  {
    if location.Some? && location.value != "" then Some(Strip(location.value)) else None
  }

  function NewTask(title: string, description: Option<string>, priority: TaskPriority, reporter: int,
                   location: Option<string>): MaintenanceTask {
    MaintenanceTask(Strip(title), description, CleanLocation(location), priority, Pending,
                    None, Some(reporter), None, None, None)
  }

  /**
   * `create_task`: an empty or blank title raises. A reporter that is not a
   * user breaks the foreign key at commit and nothing is stored.
   */
  function CreateTaskSpec(tasks: seq<MaintenanceTask>, users: seq<User>, title: string, description: Option<string>,
                          priority: TaskPriority, reporter: int, location: Option<string>)
    : (r: (TaskOutcome, seq<MaintenanceTask>))
    ensures r.0 == Failed(TitleRequired) <==> forall i :: 0 <= i < |title| ==> IsSpace(title[i])
    ensures r.0 == Failed(ConstraintViolation) <==> Strip(title) != [] && !IsUser(users, reporter)
    ensures r.0.Failed? ==> r.1 == tasks
    ensures !r.0.NoSuchTask?
    ensures r.0.Done? ==>
      r.0.id == |tasks| && |r.1| == |tasks| + 1 && r.1[..|tasks|] == tasks &&
      var t := r.1[|tasks|];
      t.status == Pending && t.title == Strip(title) && t.title != [] &&
      !IsSpace(t.title[0]) && !IsSpace(t.title[|t.title| - 1]) &&
      t.description == description && t.priority == priority &&
      t.location == CleanLocation(location) && t.reportedBy == Some(reporter) &&
      t.assignedWorker.None? && t.startedAt.None? && t.completedAt.None? && t.notes.None?
  {
    if Strip(title) == [] then (Failed(TitleRequired), tasks)
    else if !IsUser(users, reporter) then (Failed(ConstraintViolation), tasks)
    else
      var r := tasks + [NewTask(title, description, priority, reporter, location)];
      assert r[..|tasks|] == tasks;
      (Done(|tasks|), r)
  }

  method CreateTask(db: Database, title: string, description: Option<string>, priority: TaskPriority,
                    reporter: int, location: Option<string>) returns (outcome: TaskOutcome)
    modifies db`maintenanceTasks
    ensures (outcome, db.maintenanceTasks) ==
      CreateTaskSpec(old(db.maintenanceTasks), db.users, title, description, priority, reporter, location)
  {
    if title == [] || |Strip(title)| == 0 {
      return Failed(TitleRequired);
    }
    var loc := if location.Some? && location.value != "" then Some(Strip(location.value)) else None;
    var task := MaintenanceTask(Strip(title), description, loc, priority, Pending, None, Some(reporter), None, None, None);
    if !(exists i :: 0 <= i < |db.users| && db.users[i].id == reporter) {
      // the reporter foreign key fails at commit
      return Failed(ConstraintViolation);
    }
    outcome := Done(|db.maintenanceTasks|);
    db.maintenanceTasks := db.maintenanceTasks + [task];
  }

  /**
   * `assign_task`: an unknown ticket gives `None`; a user id that is not a
   * WORKER raises; a worker user without a worker profile breaks the
   * assignee foreign key at commit. Only the assignee changes.
   */
  function AssignTaskSpec(tasks: seq<MaintenanceTask>, users: seq<User>, workers: set<int>, id: int, worker: int)
    : (r: (TaskOutcome, seq<MaintenanceTask>))
    ensures r.0 == NoSuchTask <==> !(0 <= id < |tasks|)
    ensures r.0 == Failed(InvalidWorker) <==> 0 <= id < |tasks| && !IsWorkerUser(users, worker)
    ensures r.0 == Failed(ConstraintViolation) <==>
      0 <= id < |tasks| && IsWorkerUser(users, worker) && worker !in workers
    ensures !r.0.Done? ==> r.1 == tasks
    ensures r.0.Done? ==>
      r.0.id == id && r.1 == tasks[id := AssignToWorker(tasks[id], worker)] &&
      r.1[id].status == tasks[id].status && r.1[id].assignedWorker == Some(worker)
  {
    if !(0 <= id < |tasks|) then (NoSuchTask, tasks)
    else if !IsWorkerUser(users, worker) then (Failed(InvalidWorker), tasks)
    else if worker !in workers then (Failed(ConstraintViolation), tasks)
    else (Done(id), tasks[id := AssignToWorker(tasks[id], worker)])
  }

  method AssignTask(db: Database, id: int, worker: int) returns (outcome: TaskOutcome)
    modifies db`maintenanceTasks
    ensures (outcome, db.maintenanceTasks) ==
      AssignTaskSpec(old(db.maintenanceTasks), db.users, db.workers.Keys, id, worker)
  {
    if !(0 <= id < |db.maintenanceTasks|) {
      return NoSuchTask;
    }
    if !(exists i :: 0 <= i < |db.users| && db.users[i].id == worker && db.users[i].role == Worker) {
      return Failed(InvalidWorker);
    }
    if worker !in db.workers {
      return Failed(ConstraintViolation);
    }
    db.maintenanceTasks := db.maintenanceTasks[id := AssignToWorker(db.maintenanceTasks[id], worker)];
    outcome := Done(id);
  }

  /**
   * The status change of `update_task_status`: IN_PROGRESS, COMPLETED and
   * CANCELLED go through the lifecycle methods, PENDING is assigned directly.
   */
  function ApplyStatus(t: MaintenanceTask, status: TaskStatus, now: int): (r: MaintenanceTask)
    ensures r.status == status
    ensures r.(status := t.status, startedAt := t.startedAt, completedAt := t.completedAt) == t
    ensures status != InProgress ==> r.startedAt == t.startedAt
    ensures status != Completed ==> r.completedAt == t.completedAt
    ensures t.startedAt.Some? ==> r.startedAt == t.startedAt
    ensures t.completedAt.Some? ==> r.completedAt == t.completedAt
    ensures status == InProgress && t.startedAt.None? ==> r.startedAt == Some(now)
    ensures status == Completed && t.completedAt.None? ==> r.completedAt == Some(now)
  {
    match status
    case InProgress => StartTask(t, now)
    case Completed => CompleteTask(t, now)
    case Cancelled => CancelTask(t)
    case Pending => t.(status := Pending)
  }

  /** Setting the same status again changes nothing more: timestamps keep their first value. */
  lemma ApplyStatusIdempotent(t: MaintenanceTask, status: TaskStatus, first: int, second: int)
    ensures ApplyStatus(ApplyStatus(t, status, first), status, second) == ApplyStatus(t, status, first)
  {
  }

  function UpdateTaskStatusSpec(tasks: seq<MaintenanceTask>, id: int, status: TaskStatus, now: int)
    : (r: (TaskOutcome, seq<MaintenanceTask>))
    ensures r.0 == NoSuchTask <==> !(0 <= id < |tasks|)
    ensures r.0.NoSuchTask? ==> r.1 == tasks
    ensures !r.0.Failed?
    ensures r.0.Done? ==> r.0.id == id && r.1 == tasks[id := ApplyStatus(tasks[id], status, now)]
  {
    if !(0 <= id < |tasks|) then (NoSuchTask, tasks)
    else (Done(id), tasks[id := ApplyStatus(tasks[id], status, now)])
  }

  method UpdateTaskStatus(db: Database, id: int, status: TaskStatus, now: int) returns (outcome: TaskOutcome)
    modifies db`maintenanceTasks
    ensures (outcome, db.maintenanceTasks) == UpdateTaskStatusSpec(old(db.maintenanceTasks), id, status, now)
  {
    if !(0 <= id < |db.maintenanceTasks|) {
      return NoSuchTask;
    }
    var task := db.maintenanceTasks[id];
    if status == InProgress {
      task := StartTask(task, now);
    } else if status == Completed {
      task := CompleteTask(task, now);
    } else if status == Cancelled {
      task := CancelTask(task);
    } else {
      task := task.(status := status);
    }
    db.maintenanceTasks := db.maintenanceTasks[id := task];
    outcome := Done(id);
  }

  /** The note line `[timestamp] notes`; the formatted time is a parameter. */
  function NoteLine(timestamp: string, notes: string): string {
    "[" + timestamp + "] " + notes
  }

  /** `add_notes`: empty (or missing) notes become the line; otherwise a newline and the line are appended. */
  function AppendNote(current: Option<string>, timestamp: string, notes: string): (r: string)
    ensures current.None? || current == Some("") ==> r == NoteLine(timestamp, notes)
    ensures current.Some? && current.value != "" ==>
      |r| > |current.value| && r[..|current.value|] == current.value &&
      r[|current.value|..] == "\n" + NoteLine(timestamp, notes)
  {
    if current.Some? && current.value != "" then
      var r := current.value + "\n" + NoteLine(timestamp, notes);
      assert r[..|current.value|] == current.value;
      r
    else NoteLine(timestamp, notes)
  }

  /** Notes only grow: the old notes stay a prefix through any number of additions. */
  lemma NotesKeepPrefix(current: string, timestamp: string, notes: string, timestamp2: string, notes2: string)
    requires current != ""
    ensures var once := AppendNote(Some(current), timestamp, notes);
      var twice := AppendNote(Some(once), timestamp2, notes2);
      |current| < |once| < |twice| && twice[..|current|] == current && twice[..|once|] == once
  {
    var once := AppendNote(Some(current), timestamp, notes);
    var twice := AppendNote(Some(once), timestamp2, notes2);
    assert twice[..|once|][..|current|] == current;
  }

  function AddNotesSpec(tasks: seq<MaintenanceTask>, id: int, timestamp: string, notes: string)
    : (r: (TaskOutcome, seq<MaintenanceTask>))
    ensures r.0 == NoSuchTask <==> !(0 <= id < |tasks|)
    ensures r.0.NoSuchTask? ==> r.1 == tasks
    ensures !r.0.Failed?
    ensures r.0.Done? ==>
      r.0.id == id && |r.1| == |tasks| &&
      r.1 == tasks[id := tasks[id].(notes := Some(AppendNote(tasks[id].notes, timestamp, notes)))]
  {
    if !(0 <= id < |tasks|) then (NoSuchTask, tasks)
    else (Done(id), tasks[id := tasks[id].(notes := Some(AppendNote(tasks[id].notes, timestamp, notes)))])
  }

  method AddNotes(db: Database, id: int, timestamp: string, notes: string) returns (outcome: TaskOutcome)
    modifies db`maintenanceTasks
    ensures (outcome, db.maintenanceTasks) == AddNotesSpec(old(db.maintenanceTasks), id, timestamp, notes)
  {
    if !(0 <= id < |db.maintenanceTasks|) {
      return NoSuchTask;
    }
    var task := db.maintenanceTasks[id];
    var line := "[" + timestamp + "] " + notes;
    if task.notes.Some? && task.notes.value != "" {
      task := task.(notes := Some(task.notes.value + "\n" + line));
    } else {
      task := task.(notes := Some(line));
    }
    db.maintenanceTasks := db.maintenanceTasks[id := task];
    outcome := Done(id);
  }

  // ---------------------------------------------------------------------
  // Counts
  // ---------------------------------------------------------------------

  function HasStatus(s: TaskStatus): MaintenanceTask -> bool {
    (t: MaintenanceTask) => t.status == s
  }

  function IsOpen(): MaintenanceTask -> bool {
    (t: MaintenanceTask) => t.status == Pending || t.status == InProgress
  }

  function Any(): MaintenanceTask -> bool {
    (t: MaintenanceTask) => true
  }

  /** `get_open_tasks_count`: the tickets that are PENDING or IN_PROGRESS. */
  function OpenTasksCount(tasks: seq<MaintenanceTask>): (n: nat)
    ensures n == |set i: nat | i < |tasks| && (tasks[i].status == Pending || tasks[i].status == InProgress)|
  {
    var n := Count(tasks, IsOpen());
    assert Where(tasks, IsOpen()) ==
      set i: nat | i < |tasks| && (tasks[i].status == Pending || tasks[i].status == InProgress);
    n
  }

  datatype TaskStatistics = TaskStatistics(
    total: nat, pending: nat, inProgress: nat, completed: nat, cancelled: nat, open: nat)

  /** `get_task_statistics`. */
  function TaskStatisticsOf(tasks: seq<MaintenanceTask>): (r: TaskStatistics)
    ensures r.total == |tasks|
    ensures r.open == r.pending + r.inProgress
    ensures r.pending == Count(tasks, HasStatus(Pending)) && r.inProgress == Count(tasks, HasStatus(InProgress))
    ensures r.completed == Count(tasks, HasStatus(Completed)) && r.cancelled == Count(tasks, HasStatus(Cancelled))
  {
    var pending := Count(tasks, HasStatus(Pending));
    var inProgress := Count(tasks, HasStatus(InProgress));
    TaskStatistics(|tasks|, pending, inProgress, Count(tasks, HasStatus(Completed)),
                   Count(tasks, HasStatus(Cancelled)), pending + inProgress)
  }

  /** The statistics' open figure is the open-ticket count, and the four statuses partition the total. */
  lemma StatisticsAgree(tasks: seq<MaintenanceTask>)
    ensures TaskStatisticsOf(tasks).open == OpenTasksCount(tasks)
    ensures var s := TaskStatisticsOf(tasks); s.total == s.pending + s.inProgress + s.completed + s.cancelled
  {
    CountDisjoint(tasks, HasStatus(Pending), HasStatus(InProgress), IsOpen());
    var done := (t: MaintenanceTask) => t.status == Completed || t.status == Cancelled;
    CountDisjoint(tasks, HasStatus(Completed), HasStatus(Cancelled), done);
    CountDisjoint(tasks, IsOpen(), done, Any());
    CountAll(tasks);
  }

  lemma {:induction false} CountAll(tasks: seq<MaintenanceTask>)
    ensures Count(tasks, Any()) == |tasks|
  {
    if tasks != [] {
      CountAll(tasks[..|tasks| - 1]);
    }
  }
}
