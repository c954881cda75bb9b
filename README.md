# Education center back end: a Dafny model

This project models the core of a FastAPI/SQLAlchemy back end for an
education center. Managers, teachers, students, parents and maintenance
workers all hold accounts there. The center of the model is the
course capacity and waiting-list engine:
- enrolling a student either admits them into a free seat, or appends a
  WAITING item to the per-course queue named `Course_<id>_Queue`;
- dropping an enrollment frees the seat;
- the best waiting student (highest priority, then lowest position) is
  promoted into the freed seat.

Around the engine the model covers:
- the course, user, maintenance-ticket, payment and expense services;
- the financial reports built on payments and expenses;
- the model classes those services use.

How the model is laid out:
- One Dafny module per source file.
- The SQLAlchemy session is `Session.Database`, a class with one field per
  table. The service methods take it and name the tables they write in
  their `modifies` clauses.
- Each state-changing service has two parts:
  - a specification function on table values, which states the outcome
    and the new tables;
  - a method on the `Database` that follows the source's steps, proved to
    produce exactly that function's result.
- Lemmas then state what the operations promise together, for example:
  - no course is ever over capacity;
  - the position reported by an enroll is the one the position query
    returns;
  - income and expense totals add up across their breakdowns;
  - the cascade of a deleted user removes exactly its profiles.

Representation:
- Ids of append-only tables (queues, queue items, tickets, payments) are
  indices.
- Tables that delete rows (users, enrollments, expenses) carry explicit ids
  and an auto-increment counter.
- Courses and the role profiles are maps keyed by their primary key.
- Money is whole cents.
- Times are integer seconds, or integer day keys for the ledgers.
- The current time is always a parameter.
- Python truthiness is written out wherever the source relies on it
  (`if teacher_id:`, `if location`, `if email`).

## Model

| member | source | states |
|---|---|---|
| QueueModel.CurrentLength | app/models/queue.py:53-60 | the number of WAITING items whose queue is `q`, counted as the set of their rows |
| QueueModel.InProgressCount | app/models/queue.py:63-70 | the number of IN_PROGRESS items of queue `q`, counted as the set of their rows |
| QueueModel.CanAddItemIff | app/models/queue.py:73-82 | an unlimited queue (capacity 0) always accepts; a limited one accepts exactly while fewer items wait than its capacity |
| QueueModel.MaxWaitingPosition | app/models/queue.py:85-97 | none exactly when no item waits; otherwise a bound on every waiting position that some waiting item attains |
| QueueModel.NextPosition | app/models/queue.py:85-97 | 1 when nothing waits; otherwise larger than every waiting position and exactly one more than some waiting item's |
| QueueModel.PositionsRestart | app/models/queue.py:85-97 | once no item of the queue waits, numbering starts again at 1 |
| QueueModel.NextWaiting | app/models/queue.py:99-110 | none exactly when nothing waits; otherwise a waiting item that no waiting item is served before, and served before every earlier waiting item (the stable sort's head) |
| QueueModel.NextWaitingIsBest | app/models/queue.py:99-110 | the chosen item has the highest waiting priority and the lowest position among those of that priority |
| QueueModel.StartProcessing | app/models/queue.py:220-222 | the item becomes IN_PROGRESS and nothing else changes |
| QueueModel.MarkCompleted | app/models/queue.py:224-227 | the item becomes COMPLETED, stamped now; nothing else changes |
| QueueModel.Cancel | app/models/queue.py:229-232 | the item becomes CANCELLED, stamped now; nothing else changes |
| QueueModel.WholeMinutes | app/models/queue.py:218 | `int(d / 60)` truncates toward zero: the bracketing inequalities for either sign of `d` |
| QueueModel.WaitTimeMinutes | app/models/queue.py:207-218 | 0 without a join time; otherwise the truncated minutes from joining to completion (or to now) |
| CourseModel.EnrolledCount | app/models/course.py:64-71 | the number of ACTIVE enrollments of the course, counted as the set of their rows |
| CourseModel.AvailableSlots | app/models/course.py:84-91 | never negative; zero exactly when the course is full; otherwise enrolled plus free equals capacity |
| CourseModel.FeeAmount | app/models/course.py:94-101 | a missing fee reads as 0, a present one as itself |
| CourseModel.CanEnrollIffSlot | app/models/course.py:103-110 | a course accepts a student exactly when it has a free slot, that is, fewer active enrollments than capacity |
| CourseModel.MarkCompleted | app/models/course.py:171-173 | the enrollment becomes COMPLETED and inactive; ids and date stay |
| CourseModel.MarkDropped | app/models/course.py:175-177 | the enrollment becomes DROPPED and inactive; ids and date stay |
| CourseModel.DropFreesOneSeat | app/models/course.py:175-177 | dropping an active enrollment lowers its course's count by exactly one and no other course's |
| CourseModel.CompleteFreesSeat | app/models/course.py:171-173 | completing an enrollment never raises any course's count |
| CourseModel.AddTakesSeat | app/models/course.py:64-71 | a new enrollment row adds one to its course's count exactly when it is active |
| CourseModel.FindActive | app/services/enrollment_service.py:59-63 | none exactly when no ACTIVE enrollment of the student in the course exists; otherwise such a row |
| CourseModel.FindEnrollment | app/services/enrollment_service.py:123-125 | none exactly when no enrollment has the id; otherwise a row with that id |
| MaintenanceModel.StatusPredicatesExclusive | app/models/maintenance_task.py:89-126 | at most one of pending, in progress and completed holds; assigned means a worker is set |
| MaintenanceModel.StartTask | app/models/maintenance_task.py:148-152 | IN_PROGRESS; the start time is stamped only if missing; nothing else changes |
| MaintenanceModel.CompleteTask | app/models/maintenance_task.py:154-158 | COMPLETED; the completion time is stamped only if missing; nothing else changes |
| MaintenanceModel.CancelTask | app/models/maintenance_task.py:160-162 | CANCELLED with no timestamp touched |
| MaintenanceModel.AssignToWorker | app/models/maintenance_task.py:164-173 | the assignee is set and the status is kept |
| MaintenanceModel.CompleteTwiceKeepsFirstStamp | app/models/maintenance_task.py:154-158 | completing twice equals completing once: the first stamp survives |
| MaintenanceModel.StartTwiceKeepsFirstStamp | app/models/maintenance_task.py:148-152 | starting twice equals starting once: the first stamp survives |
| PaymentModel.NewPayment | app/models/payment.py:58-59 | a new payment takes the column defaults: PENDING and dated now |
| PaymentModel.AmountValue | app/models/payment.py:77-84 | a missing amount reads as 0 |
| PaymentModel.IncomeExpenseDisjoint | app/models/payment.py:126-142 | income is exactly tuition or fee, no payment is both income and expense, OTHER is neither, and no payment is both completed and pending |
| PaymentModel.MarkCompleted | app/models/payment.py:116-120 | COMPLETED; the date is filled in only when missing |
| PaymentModel.MarkCancelled | app/models/payment.py:122-124 | CANCELLED and nothing else changes |
| TaskModel.GradedCount | app/models/task.py:95-102 | the number of graded submissions, at most the submission count, equal to it exactly when every one is graded |
| TaskModel.CountAllGraded | app/models/task.py:95-102 | the graded count equals the length exactly when every submission is graded |
| TaskModel.SubmissionFor | app/models/task.py:104-117 | none exactly when the student has no submission; otherwise the first one that is theirs |
| TaskModel.FirstFrom | app/models/task.py:104-117 | the first submission of the student from a start index, or none when there is none |
| TaskModel.OnTimeAtDueDate | app/models/task.py:195-204 | handing in exactly at the due time is not late |
| TaskModel.AssignGrade | app/models/task.py:206-216 | the grade is always set; an empty feedback keeps the old one; nothing else changes |
| UserModel.RoleValueInjective | app/models/user.py:17-23 | distinct roles have distinct values |
| UserModel.SetActive | app/models/user.py:63-70 | the setter stores 1 or 0 and nothing else |
| UserModel.ActiveRoundTrip | app/models/user.py:53-70 | reading `is_active` back gives the value set |
| UserModel.DashboardRoutesDiffer | app/models/user.py:72-83 | users of different roles get different dashboard routes |
| UserModel.CanAccessOnlyViewProfile | app/models/user.py:98-108 | as written, any user may access exactly "view_profile" |
| UserModel.ManagerRefusedManageCourses | app/models/user.py:98-108 | a manager is refused "manage_courses" although the manager's list grants it |
| UserModel.EveryRoleViewsAndEditsProfile | app/models/user.py:141-153 | every role's list holds "view_profile" and "edit_profile" |
| UserModel.CanAccessByRoleExtends | app/models/user.py:98-108 | the role-aware check grants all the written one does, grants a manager "manage_courses", and grants "edit_profile", which the written check refuses |
| UserModel.CanManageUserIgnoresRole | app/models/user.py:155-165 | the answer ignores the role asked about; it is exactly `access_level >= 1` |
| UserModel.CanViewChildData | app/models/user.py:387-400 | true exactly when a student profile with that id has this parent |
| Text.Strip | app/services/maintenance_service.py:45-49 | `strip()`: the input with only white space removed from its front and its back, empty exactly when the input is all white space, and otherwise starting and ending with a non-space |
| Text.StripTrimmed | app/services/maintenance_service.py:45-51 | text that neither starts nor ends with white space is left unchanged by `strip()` |
| Text.SplitJoin | app/services/enrollment_service.py:429 | the pieces of `split` joined with the separator give the input back |
| Text.Split | app/services/enrollment_service.py:429 | `split(sep)`: at least one piece, no piece holds the separator, and joining the pieces gives the input back |
| Text.IntToString | app/services/enrollment_service.py:161 | `str(i)`: non-empty and free of underscores, so a queue name splits back into its parts |
| Text.ParseInt | app/services/enrollment_service.py:429 | `int()` succeeds exactly on stripped text of ASCII digits, with an optional sign in front |
| Text.ParseIntToString | app/services/enrollment_service.py:429 | `int()` of a formatted integer gives the integer back |
| Text.IntToStringInjective | app/services/enrollment_service.py:161 | different ids format to different strings |
| Calendar.EndOfMonthKey | app/services/financial_report_service.py:74-77 | the first of the next month minus one day is the month's last day |
| Calendar.MonthRange | app/services/financial_report_service.py:71-77 | the range from the month's first day to that end holds exactly the valid dates of the month |
| Calendar.FirstOfNextMonth | app/services/financial_report_service.py:74-77 | a valid first of a month: the next month of the same year, or January of the next year after December |
| Calendar.MonthsBack | app/services/financial_report_service.py:105-110 | the month `i` months back counts exactly `i` months before, with the year adjusted as often as needed |
| EnrollmentService.CourseIdOfQueueName | app/services/enrollment_service.py:427-429 | a name not starting with `Course_` gives no id |
| EnrollmentService.QueueNameRoundTrip | app/services/enrollment_service.py:427-429 | reading the id back from a course queue's name gives the course |
| EnrollmentService.CourseQueueNameInjective | app/services/enrollment_service.py:161 | different courses never share a queue name |
| EnrollmentService.FindQueue | app/services/enrollment_service.py:162 | none exactly when no queue has the name; otherwise the first with it |
| EnrollmentService.WithCourseQueue | app/services/enrollment_service.py:149-176 | afterwards the name is found at the returned id; an existing queue is reused unchanged, otherwise one unlimited queue is appended |
| EnrollmentService.GetOrCreateIdempotent | app/services/enrollment_service.py:149-176 | a second get-or-create finds the same queue and changes nothing |
| EnrollmentService.WithCourseQueueOthers | app/services/enrollment_service.py:149-176 | creating one course's queue leaves every other name's lookup alone |
| EnrollmentService.FindWaiting | app/services/enrollment_service.py:70-74 | none exactly when the user has no WAITING item in the queue; otherwise such an item |
| EnrollmentService.Enroll | app/services/enrollment_service.py:47-105 | each rejection holds exactly when its check is the first to fail; rejections write nothing but the queue; admission needs a free seat and adds one ACTIVE row; queueing happens only when full and stores the student at the queue's next position, behind every waiting position |
| EnrollmentService.GetOrCreateCourseQueue | app/services/enrollment_service.py:149-176 | the queue table and id are those of the get-or-create function |
| EnrollmentService.AddToCourseQueue | app/services/enrollment_service.py:179-213 | appends one WAITING item at the queue's next position |
| EnrollmentService.EnrollStudent | app/services/enrollment_service.py:47-105 | outcome and tables equal those of the enroll function |
| EnrollmentService.AdmitOrQueue | app/services/enrollment_service.py:68-101 | after the three checks pass, outcome and tables equal those of the enroll function |
| EnrollmentService.PromotionCandidate | app/services/enrollment_service.py:227-242 | a candidate needs a free seat, the course's queue and a waiting student that no waiting item is served before; without one, nobody waits or the head is not a student |
| EnrollmentService.Promote | app/services/enrollment_service.py:216-263 | promotes exactly when there is a candidate: one ACTIVE row for its user and the item COMPLETED; otherwise nothing changes |
| EnrollmentService.PromoteFillsOneSeat | app/services/enrollment_service.py:216-263 | a promotion fills one seat of its course, none elsewhere, and shortens the queue by one |
| EnrollmentService.Drop | app/services/enrollment_service.py:122-146 | not found or not active exactly as the checks say, with nothing changed; otherwise the row is DROPPED, then a promotion is tried |
| EnrollmentService.DropPromotesAtMostOne | app/services/enrollment_service.py:122-146 | a drop adds at most one row; its course loses a seat unless a waiting student takes it; other courses keep their counts |
| EnrollmentService.PromoteFromQueue | app/services/enrollment_service.py:216-263 | outcome and tables equal those of the promote function, including the rollback on a non-student |
| EnrollmentService.DropEnrollment | app/services/enrollment_service.py:108-146 | outcome and tables equal those of the drop function |
| EnrollmentInvariant.QueueCreationPreserves | app/services/enrollment_service.py:164-174 | creating a course queue keeps the engine invariant |
| EnrollmentInvariant.AdmitPreserves | app/services/enrollment_service.py:80-92 | admitting a student who is neither enrolled nor waiting into a free seat keeps the invariant |
| EnrollmentInvariant.AdmitNotWaiting | app/services/enrollment_service.py:70-77 | the admitted student was not waiting, so nobody waits in a course they hold |
| EnrollmentInvariant.AdmitFreshId | app/services/enrollment_service.py:82-90 | the new row's id is fresh, so ids stay distinct and below the counter |
| EnrollmentInvariant.AdmitWithinCapacity | app/services/enrollment_service.py:80 | admission into a free seat keeps every course within capacity |
| EnrollmentInvariant.AdmitOneActive | app/services/enrollment_service.py:59-66 | with no active row for the pair, one active enrollment per student and course remains |
| EnrollmentInvariant.CompleteItemPreserves | app/services/enrollment_service.py:254 | completing a queue item keeps the invariant |
| EnrollmentInvariant.QueuePreserves | app/services/enrollment_service.py:93-101 | queueing a student who is not enrolled or waiting, behind everyone, keeps the invariant |
| EnrollmentInvariant.EnrollPreserves | app/services/enrollment_service.py:28-105 | every enroll outcome keeps the invariant: capacity respected, one active row per pair, distinct waiters and positions, no enrolled waiter |
| EnrollmentInvariant.PromotePreserves | app/services/enrollment_service.py:216-263 | promotion keeps the invariant |
| EnrollmentInvariant.CandidateNotEnrolled | app/services/enrollment_service.py:240-251 | the student to be promoted holds no active row in the course |
| EnrollmentInvariant.CandidateWaitsOnce | app/services/enrollment_service.py:253-256 | once the item is completed, the promoted student no longer waits in that queue |
| EnrollmentInvariant.MarkDroppedPreserves | app/services/enrollment_service.py:135-137 | marking an active enrollment dropped keeps the invariant |
| EnrollmentInvariant.DropPreserves | app/services/enrollment_service.py:108-146 | every drop outcome keeps the invariant |
| EnrollmentViews.StudentQueuePosition | app/services/enrollment_service.py:278-294 | none without the queue; a position is that of a WAITING item of the student; none with the queue means the student does not wait |
| EnrollmentViews.EnrollReportsStoredPosition | app/services/enrollment_service.py:266-294 | the position an enroll reports (queued or already waiting) is the one the position query returns |
| EnrollmentViews.Entries | app/services/enrollment_service.py:325-334 | one entry per item, in order |
| EnrollmentViews.WaitingList | app/services/enrollment_service.py:320-323 | the queue's WAITING items, as many as its current length, in ascending position, all of them and nothing else |
| EnrollmentViews.EntriesOfWaitingList | app/services/enrollment_service.py:320-334 | every entry is a waiting item's and every waiting item has an entry |
| EnrollmentViews.CourseQueueInfo | app/services/enrollment_service.py:297-350 | empty without a queue; the count is the list's length and the queue's current length; a new class is suggested exactly from 5 waiting; ascending positions |
| EnrollmentViews.CourseQueueInfoListsWaiting | app/services/enrollment_service.py:319-336 | the listed students are exactly those waiting in the course's queue |
| EnrollmentViews.SummaryOf | app/services/enrollment_service.py:369-379 | a course's row: its id, name and code, capacity, active count, free slots (zero exactly when full) and the queue info's count and suggestion |
| EnrollmentViews.CoursesAscending | app/services/enrollment_service.py:365 | every course row once, with its id, in ascending id order |
| EnrollmentViews.AllCourseQueuesSummary | app/services/enrollment_service.py:353-385 | one summary per course, in ascending id order, each the course's summary row |
| EnrollmentViews.SummariesFollowCourses | app/services/enrollment_service.py:368-381 | rows made one per course keep the order and cover every course |
| EnrollmentViews.EnrolledEntries | app/services/enrollment_service.py:406-416 | one row per enrollment with its id, course, name, code and date |
| EnrollmentViews.EnrolledCourses | app/services/enrollment_service.py:399-416 | fails exactly when an active enrollment's course row is missing; otherwise every ACTIVE enrollment of the student is listed, in table order, with its id, date and its course's name and code, and nothing else is |
| EnrollmentViews.QueuedEntryAt | app/services/enrollment_service.py:425-442 | a row only for a listed item, and always for a WAITING item of the student whose queue names an existing course |
| EnrollmentViews.QueuedCourses | app/services/enrollment_service.py:424-442 | at most one row per item scanned |
| EnrollmentViews.QueuedCoursesStep | app/services/enrollment_service.py:425-442 | scanning one more item appends that item's row, if any |
| EnrollmentViews.QueuedCoursesSound | app/services/enrollment_service.py:425-442 | every queued row is a waiting item of the student in an existing course's queue |
| EnrollmentViews.QueuedCoursesOrdered | app/services/enrollment_service.py:425-442 | rows follow the item order |
| EnrollmentViews.QueuedCoursesComplete | app/services/enrollment_service.py:425-442 | every waiting item of the student in an existing course's queue is listed with that course |
| EnrollmentViews.CourseQueueItemListed | app/services/enrollment_service.py:427-431 | such an item yields a row naming its course |
| EnrollmentViews.StudentCoursesAndQueues | app/services/enrollment_service.py:388-454 | empty lists when the enrolled list fails; otherwise the enrolled list and the queued list over all items |
| CourseService.CreateCourseSpec | app/services/course_service.py:28-91 | a taken code is refused first, then a truthy unknown teacher; a teacher id of 0 fails at commit; otherwise one row under the next id |
| CourseService.CreateAddsOneCourse | app/services/course_service.py:28-91 | a created course is one new row and every other row stays |
| CourseService.CreateKeepsCodesUnique | app/services/course_service.py:28-91 | creating keeps course codes unique |
| CourseService.CreateCourse | app/services/course_service.py:28-91 | outcome and tables equal those of the create function |
| CourseService.ApplyUpdate | app/services/course_service.py:147-210 | each given argument replaces its field; the code never changes |
| CourseService.ApplyUpdateLaws | app/services/course_service.py:147-210 | an empty update changes nothing; applying twice is applying once |
| CourseService.UpdateCourseSpec | app/services/course_service.py:147-210 | missing course, then an unknown given teacher, are refused with no change; otherwise only that row changes |
| CourseService.UpdateKeepsCodes | app/services/course_service.py:147-210 | updates keep the set of courses and all codes |
| CourseService.UpdateMayOverfill | app/services/course_service.py:147-210 | the capacity is not checked: a course with two active students accepts capacity 1 |
| CourseService.UpdateCourse | app/services/course_service.py:147-210 | outcome and table equal those of the update function |
| CourseService.DeleteCourseSpec | app/services/course_service.py:213-237 | the course row and its enrollments go; a missing course changes nothing |
| CourseService.DeleteLeavesOtherCounts | app/services/course_service.py:213-237 | no enrollment counts for the deleted course; other courses keep their counts |
| CourseService.DeleteCourse | app/services/course_service.py:213-237 | outcome and tables equal those of the delete function |
| CourseService.IsStudentEnrolled | app/services/course_service.py:298-319 | true exactly when an ACTIVE enrollment of the student in the course exists |
| CourseService.DroppedNotEnrolled | app/services/course_service.py:298-319 | dropping the pair's only active row makes the student not enrolled |
| MaintenanceService.CleanLocation | app/services/maintenance_service.py:51 | none or empty gives none; otherwise the stripped text |
| MaintenanceService.CreateTaskSpec | app/services/maintenance_service.py:20-61 | an empty or blank title raises; an unknown reporter fails at commit; otherwise one PENDING ticket with the stripped title, the given description and priority, the cleaned location and the reporter |
| MaintenanceService.CreateTask | app/services/maintenance_service.py:20-61 | outcome and table equal those of the create function |
| MaintenanceService.AssignTaskSpec | app/services/maintenance_service.py:78-119 | unknown ticket, then a non-WORKER user, then a worker without a profile, are refused; otherwise only the assignee changes |
| MaintenanceService.AssignTask | app/services/maintenance_service.py:78-119 | outcome and table equal those of the assign function |
| MaintenanceService.ApplyStatus | app/services/maintenance_service.py:122-157 | the new status goes through the lifecycle methods, which stamp times only once |
| MaintenanceService.ApplyStatusIdempotent | app/services/maintenance_service.py:122-157 | setting the same status again changes nothing more |
| MaintenanceService.UpdateTaskStatusSpec | app/services/maintenance_service.py:122-157 | an unknown ticket is reported; otherwise only that ticket changes |
| MaintenanceService.UpdateTaskStatus | app/services/maintenance_service.py:122-157 | outcome and table equal those of the status function |
| MaintenanceService.AppendNote | app/services/maintenance_service.py:249-283 | empty notes become the line; otherwise the old notes, a newline and the line |
| MaintenanceService.NotesKeepPrefix | app/services/maintenance_service.py:249-283 | notes only grow: earlier notes stay a prefix |
| MaintenanceService.AddNotesSpec | app/services/maintenance_service.py:249-283 | an unknown ticket is reported; otherwise only its notes change |
| MaintenanceService.AddNotes | app/services/maintenance_service.py:249-283 | outcome and table equal those of the notes function |
| MaintenanceService.OpenTasksCount | app/services/maintenance_service.py:208-220 | the number of PENDING or IN_PROGRESS tickets |
| MaintenanceService.TaskStatisticsOf | app/services/maintenance_service.py:286-317 | the total and the per-status counts |
| MaintenanceService.StatisticsAgree | app/services/maintenance_service.py:286-317 | the open figure is the open count and the four statuses add up to the total |
| PaymentService.RecordPaymentSpec | app/services/payment_service.py:22-69 | a non-positive amount raises first; an unknown payer fails at commit; otherwise one COMPLETED payment dated now, with the given amount, payer, type, method, reference and notes |
| PaymentService.RecordPayment | app/services/payment_service.py:22-69 | outcome and table equal those of the record function |
| PaymentService.TotalIncomeParts | app/services/payment_service.py:133-158 | no income in range gives 0; income is the tuition part plus the fee part |
| PaymentService.RecordAddsIncome | app/services/payment_service.py:133-158 | a recorded income payment adds its amount to every range holding today |
| PaymentService.PaymentSummaryOf | app/services/payment_service.py:232-256 | the total (the sum of their amounts) and number of the payer's completed payments |
| PaymentService.RecordAddsToSummary | app/services/payment_service.py:22-69 | recording a payment adds one payment and its amount to its payer's summary and leaves every other summary alone |
| PaymentService.PaidByFacts | app/services/payment_service.py:232-256 | a payer without completed payments has paid 0; non-negative amounts give a non-negative total |
| PaymentService.IncomeByCourse | app/services/payment_service.py:161-199 | one row per course reference of the range's tuition payments, in first-appearance order, each named by its course or "Unknown" and holding its group's sum; rows are distinct, every tuition payment has its row, and the rows add up to the tuition total |
| PaymentService.IncomeRowsFacts | app/services/payment_service.py:161-199 | rows built one per group are distinct, cover every tuition payment of the range and add up to its tuition total |
| PaymentService.ParentPayments | app/services/payment_service.py:86-111 | as many rows as the payer has payments within the bounds |
| PaymentService.SortedDatedNewestFirst | app/services/payment_service.py:111 | the sorted dated rows run from newest to oldest |
| PaymentService.SortedDatedSound | app/services/payment_service.py:111 | the sorted dated rows are dated payments of the payer |
| PaymentService.SortedDatedComplete | app/services/payment_service.py:111 | every dated payment of the payer is among the sorted rows |
| PaymentService.ParentPaymentsSound | app/services/payment_service.py:86-111 | every listed payment is the payer's and within the bounds |
| PaymentService.ParentPaymentsComplete | app/services/payment_service.py:86-111 | every payment of the payer within the bounds is listed |
| PaymentService.ParentPaymentsNewestFirst | app/services/payment_service.py:86-111 | dated payments come newest first and every undated one after them |
| ExpenseService.CreateExpenseSpec | app/services/expense_service.py:20-62 | a non-positive amount raises first; an unknown manager fails at commit; otherwise one row under the next id |
| ExpenseService.CreateExpense | app/services/expense_service.py:20-62 | outcome and table equal those of the create function |
| ExpenseService.CreateKeepsInvariants | app/services/expense_service.py:20-62 | creating keeps ids unique and below the counter and amounts positive |
| ExpenseService.TotalExpensesFacts | app/services/expense_service.py:109-132 | no expense in range gives 0; positive amounts give a non-negative total |
| ExpenseService.CreateAddsToTotal | app/services/expense_service.py:109-132 | a created expense adds its amount to every range holding its date |
| ExpenseService.UpdateExpenseSpec | app/services/expense_service.py:171-214 | missing id is reported; a non-positive amount is refused after the category was already set; otherwise the row is updated field by field |
| ExpenseService.UpdateExpense | app/services/expense_service.py:171-214 | outcome and table equal those of the update function |
| ExpenseService.UpdateLaws | app/services/expense_service.py:171-214 | an empty update changes nothing; updates keep ids and positive amounts |
| ExpenseService.DeleteExpenseSpec | app/services/expense_service.py:217-235 | true exactly when a row with the id existed; then one row fewer; every remaining row was there before |
| ExpenseService.DeleteExpense | app/services/expense_service.py:217-235 | outcome and table equal those of the delete function |
| ExpenseService.DeleteRemovesOnlyIt | app/services/expense_service.py:217-235 | with unique ids the deleted row is gone and every other row stays |
| ExpenseService.DeleteSubtractsFromTotal | app/services/expense_service.py:217-235 | deleting takes its amount out of every range total holding its date |
| ExpenseService.ExpensesByCategory | app/services/expense_service.py:135-168 | one row per category, with no category twice; every expense of the range has its category's row, and every row has an expense of the range; each row's total is the sum of its category's amounts in the range |
| ExpenseService.CategoryTotalsAddUp | app/services/expense_service.py:135-168 | the category totals add up to the range total |
| ExpenseService.SummaryByManager | app/services/expense_service.py:238-259 | the manager's total (the sum of their amounts) and count, 0/0 without expenses |
| ExpenseService.CreateAddsToManagerSummary | app/services/expense_service.py:20-62 | creating an expense adds one expense and its amount to its manager's summary and leaves every other summary alone |
| ExpenseService.ManagerFacts | app/services/expense_service.py:238-259 | no expense of the manager gives zero; positive amounts give a non-negative total |
| FinancialReport.GenerateFinancialSummary | app/services/financial_report_service.py:20-56 | income, expenses, net as their difference, profit exactly when income exceeds expenses; the course rows are exactly `get_income_by_course`'s rows (each referenced course in first-appearance order, named, with its tuition sum), and with fee income they make the total income; the category rows are `get_expenses_by_category`'s and add up to the expenses |
| FinancialReport.BudgetSummary | app/services/financial_report_service.py:59-83 | the summary of exactly today's month: its totals, net, profit flag, and both breakdowns as in the range summary |
| FinancialReport.TrendMonthLeavesCalendar | app/services/financial_report_service.py:105-112 | in June, offset 18 gives month 0, which `date()` rejects |
| FinancialReport.TrendMonthAsWrittenAgrees | app/services/financial_report_service.py:105-110 | within one year before January the written month arithmetic is the calendar's |
| FinancialReport.TrendEntryAt | app/services/financial_report_service.py:103-130 | an entry for the month `i` back, net as income minus expenses |
| FinancialReport.TrendEntryIsItsMonth | app/services/financial_report_service.py:112-122 | an entry's totals are over the range holding exactly its month's dates |
| FinancialReport.MonthlyTrend | app/services/financial_report_service.py:86-132 | the loop builds the trend of the last `months` months (none for a non-positive count) |
| FinancialReport.TrendEntries | app/services/financial_report_service.py:124-130 | the `k`-th entry is the month `n - 1 - k` back |
| FinancialReport.TrendRunsOldestFirst | app/services/financial_report_service.py:100-132 | consecutive months, oldest first, ending with today's month |
| FinancialReport.SlicePrefix | app/services/financial_report_service.py:213 | Python `[:limit]`: the first `limit` rows, a negative limit counting from the end |
| FinancialReport.TopOfFacts | app/services/financial_report_service.py:208-213 | highest income first, only input rows, no dropped row earns more than a kept one, at most `limit` |
| FinancialReport.TopRevenueCourses | app/services/financial_report_service.py:188-215 | with a non-negative `limit`, exactly `limit` rows or every course with income if fewer; highest income first; each row is a course with income, named, holding its tuition sum over the range; no course left out earned more than a course returned |
| UserService.UsernameAvailable | app/services/user_service.py:28-48 | true exactly when no user has the username |
| UserService.CreateUserSpec | app/services/user_service.py:51-109 | taken username refused first; a used email fails at commit; otherwise one active user under the next id |
| UserService.CreateUser | app/services/user_service.py:51-109 | outcome and table equal those of the create function |
| UserService.CreateAddsOneUserOfRole | app/services/user_service.py:51-109 | one more user of the role, other roles' counts unchanged |
| UserService.CreateKeepsInvariants | app/services/user_service.py:51-109 | ids stay fresh and unique; usernames and emails stay unique |
| UserService.CreateProfileSpec | app/services/user_service.py:131-145 | an existing key or an unknown user id is refused; otherwise exactly one key is added |
| UserService.CreateProfileAddsOneKey | app/services/user_service.py:131-145 | a created profile adds exactly its own key |
| UserService.CreateStudentProfileSpec | app/services/user_service.py:294-339 | a truthy parent id without a parent profile is refused before the insert; otherwise as any profile insert, the parent key included |
| UserService.CreateManagerProfile | app/services/user_service.py:112-148 | outcome and table equal those of the profile function |
| UserService.CreateTeacherProfile | app/services/user_service.py:252-291 | outcome and table equal those of the profile function |
| UserService.CreateStudentProfile | app/services/user_service.py:294-339 | outcome and table equal those of the student profile function |
| UserService.CreateParentProfile | app/services/user_service.py:342-378 | outcome and table equal those of the profile function |
| UserService.CreateWorkerProfile | app/services/user_service.py:381-420 | outcome and table equal those of the profile function |
| UserService.CreateRoleProfile | app/services/user_service.py:469-507 | exactly the role's table may change; the manager's access level defaults to 1 |
| UserService.RoleProfileCreated | app/services/user_service.py:469-507 | a successful dispatch leaves the user with a profile of its role |
| UserService.RemoveUser | app/services/user_service.py:511 | the table without the first row having the id |
| UserService.RemoveAppended | app/services/user_service.py:509-513 | deleting a just-appended user with a fresh id gives the table back |
| UserService.CreateUserWithProfileSpec | app/services/user_service.py:459-519 | a failed user insert is returned with nothing changed; success adds the user and a profile of its role and touches no other profile table; a failure leaves the profiles as they were |
| UserService.NoUserPersistsOnFailure | app/services/user_service.py:509-513 | after a profile failure the user is deleted again, the user table is as before, and the profile's error is returned |
| UserService.CreateUserWithProfile | app/services/user_service.py:459-519 | outcome and tables equal those of the combined function |
| UserService.UpdateUserSpec | app/services/user_service.py:186-222 | missing user reported; a truthy email of another user fails at commit; otherwise only truthy fields are written |
| UserService.UpdateUser | app/services/user_service.py:186-222 | outcome and table equal those of the update function |
| UserService.UpdateLaws | app/services/user_service.py:186-222 | nothing truthy changes nothing; no update breaks ids or unique columns |
| UserService.DeleteUserAsWritten | app/services/user_service.py:236-249 | not found exactly when no user has the id; refused exactly when the user has a profile, or else when payments or queue items refer to it; refusals change nothing |
| UserService.PayerCannotBeDeleted | app/models/payment.py:54-64 | a user without a profile who has made a payment cannot be deleted as written, though the schema's cascade would delete it |
| UserService.CascadeProfiles | app/models/user.py:263-266 | the user's profiles go and their children lose the parent id |
| UserService.DeleteUserSpec | app/services/user_service.py:236-249 | not found exactly when no user has the id; otherwise the row and its role profiles go, and its children's parent id is cleared |
| UserService.DeleteWithProfileRefused | app/models/user.py:181-187 | a user with a profile is refused as written although the schema would delete it |
| UserService.TeacherCannotBeDeleted | app/models/user.py:181-187 | a teacher with a teacher profile cannot be deleted as written |
| UserService.DeleteAgreesWithoutProfile | app/services/user_service.py:236-249 | without profiles, children, payments or queue items, both readings delete alike |
| UserService.DeleteRemovesOnlyIt | app/services/user_service.py:236-249 | the user is gone and so is its profile; every other user stays, other managers stay, and other students stay apart from a cleared parent id |
| UserService.DeleteUser | app/services/user_service.py:225-249 | outcome and tables equal those of the cascading delete function |

## Left out

- The HTTP routers, schemas, authentication, password hashing and JWTs are not part of this model. The password hash is a parameter of `CreateUser`.
- Clocks (`datetime.utcnow`, `date.today`) are parameters. Display strings, formatted amounts, `__repr__` and the names read through relationships (teacher, student, payer and creator names) are not modelled.
- Floating point and `Decimal` are not modelled: money is whole cents, grades are hundredths, rates are integers. `calculate_pay` and `grade_percentage` are not modelled, because they only do float arithmetic.
- Exceptions outside the modelled error paths are not modelled: lost connections, or an `IntegrityError` other than those named in the specification functions.
- `Teacher.can_grade_student` and `Student.can_enroll_in_course` are not modelled. In the source both always return True.
- Pass-through properties are not modelled: the `*_name`, `*_display` and `formatted_amount` properties, `salary_amount`, `rate` and `contact_number`.
- Some properties appear only as plain definitions, without contracts of their own: `Task.is_overdue` (`TaskModel.IsOverdue`), `Task.submission_count`, `Student.has_parent` (`UserModel.HasParent`), `Queue.is_full` and the status predicates of each model. Every contract above uses them.
- Trivial read-only getters are not modelled: `get_all_courses`, `get_course_by_id`, `get_course_by_code`, `get_courses_by_teacher`, `get_student_enrollments`, `get_course_enrollments`, `get_task_by_id`, `get_tasks_by_status`, `get_worker_tasks`, `get_all_tasks`, `get_unassigned_tasks`, `get_urgent_tasks`, `get_payment_by_id`, `get_course_payments`, `get_all_payments`, `get_expenses`, `get_all_users`, `get_users_by_role`, `get_parent_children`. Each is a filter over one table.
- `get_dashboard_summary` and the report's `get_expense_summary_by_category` are not modelled, because they only repackage the modelled totals as floats.
- SQL ordering is not modelled in full:
  - `db.query(Course).all()` has no ORDER BY; the model scans by ascending primary key.
  - The order of GROUP BY rows is taken as first appearance.
  - Ties in `ORDER BY ... DESC` keep table order.
- FinancialReport.TopOf: the order among courses with equal income is not stated. Python's stable sort keeps their first-appearance order.
- Text.ParseInt: accepts ASCII digits only. Python's `int()` also accepts other Unicode decimal digits (`int("١٢") == 12`) and underscores between digits. The queue names it parses are built by `str(course_id)`, which writes only ASCII digits.
- String comparison follows exact code points, with no collation or case folding.
- Auto-increment values consumed by failed inserts are not reproduced. A row refused at commit leaves the counter as it was.
- `datetime` and `date` values are one integer scale. Dates outside the years `date` accepts are not modelled. The reports pass a `date` as the end bound and compare it with DATETIME columns (`payment_date <= end_date`). In the source, a payment made after midnight on the last day therefore falls outside the range; the model counts it.
- UserService.DeleteUser: payments and queue items of the user are kept, although their keys declare `ON DELETE CASCADE`. Queue items use their index as id, so the model removes no row from that table. Tasks and reported tickets that name the user as creator or reporter are not modelled; their keys are nullable, and the session clears them. As written, payments and queue items that refer to the user make the session's delete fail and roll back (`UserService.DeleteUserAsWritten`).
- CourseService.DeleteCourse: course tasks are not part of this model. In the source, a task of the course makes the delete fail: `Task.course_id` is NOT NULL, and the `course.tasks` reverse relationship has no delete cascade. The session therefore tries to clear the key, the commit raises, and `delete_course` rolls back and returns `(False, "Error deleting course: ...")`. The model deletes the course in that case.
- FinancialReport.MonthlyTrend: computes each month with the calendar's month arithmetic, not with the source's single-year step. Where the two differ, the source raises (see Findings).
- UserService.DeleteUser: implements the schema's declared cascade for the role profiles and the children's parent key, not the session's refusal to delete a user that has a profile (see Findings).
- UserService.DeleteUserSpec: covers only the user table and the role profiles. Other cascades the schema declares are not applied:
  - A deleted student's enrollments stay, although `course_enrollments.student_id` declares `ON DELETE CASCADE`. A deleted student therefore keeps their seats, and `CourseModel.EnrolledCount` still counts them.
  - A deleted teacher's id stays in `courses.teacher_id`, although that key declares `ON DELETE SET NULL`.
  - A deleted worker's id stays in the tickets' `assigned_to_worker_id`, although that key declares `ON DELETE SET NULL`.
  - A deleted manager's id stays in `expenses.created_by_manager_id`, although that key declares `ON DELETE SET NULL`.
- UserModel.CanAccessByRole: the role-aware check the permission lists are written for. The code as written is `UserModel.CanAccess` (see Findings).
- ExpenseService.UpdateExpenseSpec: after a rejected amount the model keeps the new category on the row, because the session's copy holds it. Whether a later commit in the same session writes it out is not modelled.
- Concurrency between sessions and transaction isolation are out of scope. Each service call runs alone.

## Findings

| source | as written | input that shows it | evidently intended | confidence | as-written member | corrected member |
|---|---|---|---|---|---|---|
| app/models/user.py:98-108 | `can_access` asks `User.get_permissions`, which returns only "view_profile". The role classes that define richer lists are separate models, not subclasses of `User`, so every user is refused every other permission | a manager asking for "manage_courses", the very example at app/services/auth_service.py:165 | the user's role's own permission list decides | medium, not executed | UserModel.ManagerRefusedManageCourses | UserModel.CanAccessByRoleExtends |
| app/services/financial_report_service.py:105-112 | the month `i` months back is corrected by at most one year | `months = 19` on a day in June: offset 18 gives month 0, and `date(year, 0, 1)` raises `ValueError` | the calendar month `i` months back, for any `i` | high, not executed | FinancialReport.TrendMonthLeavesCalendar | FinancialReport.TrendRunsOldestFirst |
| app/services/user_service.py:236-249 | deleting a user whose role profile exists: the profile's `user` relationship creates a backref without a delete cascade, so the session first sets the profile's `user_id`, its primary key, to NULL and refuses; the error path rolls back. Payments and queue items of the user are refused the same way, through their NOT NULL keys | a teacher made by `create_user_with_profile`, then `delete_user` on their id | the `ON DELETE CASCADE` of app/models/user.py:181 takes the profile with the user | medium, not executed | UserService.TeacherCannotBeDeleted | UserService.DeleteRemovesOnlyIt |
