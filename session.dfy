/**
 * The database session every service receives: one table per model, held
 * as plain values that the services read and replace. Tables whose rows are
 * never deleted use the row's index as its id; the others carry an explicit
 * id drawn from an auto-increment counter. Role profiles and courses are
 * keyed by their primary key.
 */
module Session {
  import opened Common
  import C = CourseModel
  import Q = QueueModel
  import U = UserModel
  import M = MaintenanceModel
  import P = PaymentModel
  import E = ExpenseModel

  class Database {
    var users: seq<U.User>
    var nextUserId: int
    var managers: map<int, U.ManagerProfile>
    var teachers: map<int, U.TeacherProfile>
    var students: map<int, U.StudentProfile>
    var parents: map<int, U.ParentProfile>
    var workers: map<int, U.WorkerProfile>
    var courses: map<int, C.Course>
    var nextCourseId: int
    var enrollments: seq<C.Enrollment>
    var nextEnrollmentId: int
    var queues: seq<Q.Queue>
    var queueItems: seq<Q.QueueItem>
    var maintenanceTasks: seq<M.MaintenanceTask>
    var payments: seq<P.Payment>
    var expenses: seq<E.Expense>
    var nextExpenseId: int

    /** Auto-increment counters stay ahead of every id in use. */
    ghost predicate Valid()
      reads this
    {
      (forall i :: 0 <= i < |users| ==> users[i].id < nextUserId) &&
      (forall k :: k in courses ==> k < nextCourseId) &&
      (forall i :: 0 <= i < |enrollments| ==> enrollments[i].id < nextEnrollmentId) &&
      (forall i :: 0 <= i < |expenses| ==> expenses[i].id < nextExpenseId)
    }

    /** An empty database; ids start at 1. */
    constructor ()
      ensures Valid()
      ensures users == [] && managers == map[] && teachers == map[] && students == map[]
      ensures parents == map[] && workers == map[] && courses == map[] && enrollments == []
      ensures queues == [] && queueItems == [] && maintenanceTasks == [] && payments == [] && expenses == []
      ensures nextUserId == 1 && nextCourseId == 1 && nextEnrollmentId == 1 && nextExpenseId == 1
    {
      users, nextUserId := [], 1;
      managers, teachers, students, parents, workers := map[], map[], map[], map[], map[];
      courses, nextCourseId := map[], 1;
      enrollments, nextEnrollmentId := [], 1;
      queues, queueItems := [], [];
      maintenanceTasks, payments := [], [];
      expenses, nextExpenseId := [], 1;
    }
  }
}
