/**
 * Users, their roles and the role profiles (app/models/user.py).
 * Each role profile is a row keyed by the user's id in its own table.
 */
module UserModel {
  import opened Common

  datatype UserRole = Manager | Teacher | Student | Parent | Worker

  /** A row of `users`; `activeFlag` is the integer column behind `is_active`. */
  datatype User = User(
    id: int,
    username: string,
    passwordHash: string,
    email: Option<string>,
    fullName: Option<string>,
    role: UserRole,
    activeFlag: int)

  datatype ManagerProfile = ManagerProfile(department: Option<string>, accessLevel: int)
  datatype TeacherProfile = TeacherProfile(subject: Option<string>, hireDate: Option<int>, salary: Option<int>)
  datatype StudentProfile = StudentProfile(enrollmentDate: Option<int>, gradeLevel: Option<string>, parentId: Option<int>)
  datatype ParentProfile = ParentProfile(phone: Option<string>, address: Option<string>)
  datatype WorkerProfile = WorkerProfile(jobTitle: Option<string>, hireDate: Option<int>, hourlyRate: Option<int>)

  /** Some row of `users` has the id. */
  predicate IsUser(users: seq<User>, id: int) {
    exists i :: 0 <= i < |users| && users[i].id == id
  }

  /** `UserRole.value`. */
  function RoleValue(role: UserRole): string {
    match role
    case Manager => "manager"
    case Teacher => "teacher"
    case Student => "student"
    case Parent => "parent"
    case Worker => "worker"
  }

  /** Distinct roles have distinct values. */
  lemma RoleValueInjective(a: UserRole, b: UserRole)
    requires RoleValue(a) == RoleValue(b)
    ensures a == b
  {
    match a
    case Manager => assert RoleValue(b)[0] == 'm';
    case Teacher => assert RoleValue(b)[0] == 't';
    case Student => assert RoleValue(b)[0] == 's';
    case Parent => assert RoleValue(b)[0] == 'p';
    case Worker => assert RoleValue(b)[0] == 'w';
  }

  /** The `is_active` getter: any non-zero flag reads as active. */
  predicate IsActive(u: User) {
    u.activeFlag != 0
  }

  /** The `is_active` setter: stores 1 or 0 and touches nothing else. */
  function SetActive(u: User, value: bool): (r: User)
    ensures r.activeFlag == 1 || r.activeFlag == 0
    ensures r.(activeFlag := u.activeFlag) == u
  {
    u.(activeFlag := if value then 1 else 0)
  }

  /** Reading `is_active` back gives the value that was set. */
  lemma ActiveRoundTrip(u: User, value: bool)
    ensures IsActive(SetActive(u, value)) == value
  {
  }

  /** `User.get_dashboard_route`. */
  function DashboardRoute(u: User): string {
    "/" + RoleValue(u.role) + "/dashboard"
  }

  /** Users with different roles are sent to different dashboards. */
  lemma DashboardRoutesDiffer(u: User, v: User)
    requires u.role != v.role
    ensures DashboardRoute(u) != DashboardRoute(v)
  {
    assert DashboardRoute(u)[1] == RoleValue(u.role)[0];
    assert DashboardRoute(v)[1] == RoleValue(v.role)[0];
  }

  /** `User.get_permissions`. The role classes do not derive from `User`, so this is every user's list. */
  function UserPermissions(): seq<string> {
    ["view_profile"]
  }

  /** `User.can_access`. */
  predicate CanAccess(u: User, resource: string) {
    resource in UserPermissions()
  }

  /** As written, access does not depend on the role: only the profile can be viewed. */
  lemma CanAccessOnlyViewProfile(u: User, resource: string)
    ensures CanAccess(u, resource) <==> resource == "view_profile"
  {
  }

  /** A manager is refused "manage_courses", although managers' own list grants it. */
  lemma ManagerRefusedManageCourses(u: User)
    requires u.role == Manager
    ensures !CanAccess(u, "manage_courses")
    ensures "manage_courses" in ManagerPermissions()
  {
  }

  /** `Manager.get_permissions`. */
  function ManagerPermissions(): seq<string> {
    ["view_profile", "edit_profile",
     "manage_users", "manage_courses", "manage_tasks",
     "manage_payments", "manage_queues",
     "view_reports", "view_analytics"]
  }

  /** `Teacher.get_permissions`. */
  function TeacherPermissions(): seq<string> {
    ["view_profile", "edit_profile",
     "view_my_courses", "manage_my_tasks",
     "grade_students", "view_my_students"]
  }

  /** `Student.get_permissions`. */
  function StudentPermissions(): seq<string> {
    ["view_profile", "edit_profile",
     "view_my_courses", "view_my_tasks",
     "submit_tasks", "view_my_grades",
     "view_my_payments", "join_queues"]
  }

  /** `Parent.get_permissions`. */
  function ParentPermissions(): seq<string> {
    ["view_profile", "edit_profile",
     "view_children", "view_children_grades",
     "view_children_tasks", "manage_payments",
     "view_reports"]
  }

  /** `Worker.get_permissions`. */
  function WorkerPermissions(): seq<string> {
    ["view_profile", "edit_profile",
     "view_my_tasks", "view_my_schedule",
     "view_my_payments"]
  }

  /** The list of the profile class that belongs to a role. */
  function RolePermissions(role: UserRole): seq<string> {
    match role
    case Manager => ManagerPermissions()
    case Teacher => TeacherPermissions()
    case Student => StudentPermissions()
    case Parent => ParentPermissions()
    case Worker => WorkerPermissions()
  }

  /** Every role may view and edit its own profile. */
  lemma EveryRoleViewsAndEditsProfile(role: UserRole)
    ensures "view_profile" in RolePermissions(role)
    ensures "edit_profile" in RolePermissions(role)
  {
  }

  /** The role-aware access check the permission lists are written for. */
  predicate CanAccessByRole(u: User, resource: string) {
    resource in RolePermissions(u.role)
  }

  /** The role-aware check grants everything the as-written check does, and each role's own list. */
  lemma CanAccessByRoleExtends(u: User, resource: string)
    ensures CanAccess(u, resource) ==> CanAccessByRole(u, resource)
    ensures u.role == Manager ==> CanAccessByRole(u, "manage_courses")
    ensures CanAccessByRole(u, "edit_profile") && !CanAccess(u, "edit_profile")
  {
  }

  /** `Manager.can_manage_user`: the role asked about plays no part. */
  predicate CanManageUser(m: ManagerProfile, role: UserRole) {
    m.accessLevel >= 1
  }

  lemma CanManageUserIgnoresRole(m: ManagerProfile, a: UserRole, b: UserRole)
    ensures CanManageUser(m, a) == CanManageUser(m, b)
    ensures CanManageUser(m, a) <==> m.accessLevel >= 1
  {
  }

  /** `Student.has_parent`. */
  predicate HasParent(s: StudentProfile) {
    s.parentId.Some?
  }

  /**
   * `Parent.can_view_child_data`: some student profile whose parent is this
   * parent belongs to `studentId` (the `children` backref over `students`).
   */
  function CanViewChildData(parentUserId: int, students: map<int, StudentProfile>, studentId: int): (r: bool)
    ensures r <==> studentId in students && students[studentId].parentId == Some(parentUserId)
  {
    exists child :: child in students && students[child].parentId == Some(parentUserId) && child == studentId
  }
}
