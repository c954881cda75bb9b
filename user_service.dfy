/**
 * User administration (app/services/user_service.py): the username check,
 * creating a user and a role profile, the compensating delete when the
 * profile cannot be created, partial updates and deletion. Each service
 * method is specified by a function on the tables it reads and writes.
 * Password hashing belongs to the authentication service; the hash arrives
 * here as a parameter.
 */
module UserService {
  import opened Common
  import opened UserModel
  import opened Session
  import PaymentModel
  import QueueModel

  datatype UserError =
    | UsernameExists       // "Username already exists. ..."
    | ConstraintViolation  // a unique column rejected the write at commit
    | UserNotFound         // "User not found"
    | ParentNotFound       // "Parent not found."
    | ProfileExists        // "<Role> profile already exists for this user." (any integrity error of the insert)
    | ProfileBlocksDelete  // the session refuses to delete a user that still has a role profile
    | RowsBlockDelete      // the session refuses to delete a user that payments or queue items refer to

  function HasUsername(username: string): User -> bool {
    (u: User) => u.username == username
  }

  function HasUserId(id: int): User -> bool {
    (u: User) => u.id == id
  }

  /** Some user other than the one at `i` already has the email. */
  predicate EmailTakenByOther(users: seq<User>, i: int, email: string) {
    exists j :: 0 <= j < |users| && j != i && users[j].email == Some(email)
  }

  ghost predicate UniqueIds(users: seq<User>) {
    forall i, j :: 0 <= i < j < |users| ==> users[i].id != users[j].id
  }

  /** Usernames and non-null emails are unique columns. */
  ghost predicate UniqueColumns(users: seq<User>) {
    forall i, j :: 0 <= i < j < |users| ==>
      users[i].username != users[j].username &&
      (users[i].email.Some? ==> users[i].email != users[j].email)
  }

  ghost predicate IdsBelow(users: seq<User>, nextId: int) {
    forall i :: 0 <= i < |users| ==> users[i].id < nextId
  }

  // ---------------------------------------------------------------------
  // validate_unique_username
  // ---------------------------------------------------------------------

  /** `validate_unique_username`: the query for the first user with the name finds nothing. */
  function UsernameAvailable(users: seq<User>, username: string): (b: bool)
    ensures b <==> forall i :: 0 <= i < |users| ==> users[i].username != username
  {
    First(users, HasUsername(username)).None?
  }

  // ---------------------------------------------------------------------
  // create_user
  // ---------------------------------------------------------------------

  datatype UserOutcome = UserCreated(id: int) | UserNotCreated(why: UserError)

  /** The row `create_user` adds; `is_active` takes its column default 1. */
  function NewUser(id: int, username: string, passwordHash: string, email: Option<string>,
                   fullName: Option<string>, role: UserRole): User {
    User(id, username, passwordHash, email, fullName, role, 1)
  }

  /**
   * `create_user`: a taken username is refused before anything is written;
   * an email some user already has breaks the unique column at commit, which
   * rolls the insert back.
   */
  function CreateUserSpec(users: seq<User>, nextId: int, username: string, passwordHash: string,
                          email: Option<string>, fullName: Option<string>, role: UserRole)
    : (r: (UserOutcome, seq<User>, int))
    ensures r.0 == UserNotCreated(UsernameExists) <==> !UsernameAvailable(users, username)
    ensures r.0 == UserNotCreated(ConstraintViolation) <==>
      UsernameAvailable(users, username) && email.Some? && EmailTakenByOther(users, -1, email.value)
    ensures r.0.UserNotCreated? ==> r.1 == users && r.2 == nextId
    ensures r.0.UserCreated? ==>
      r.0.id == nextId && r.2 == nextId + 1 &&
      r.1 == users + [NewUser(nextId, username, passwordHash, email, fullName, role)]
  {
    if !UsernameAvailable(users, username) then (UserNotCreated(UsernameExists), users, nextId)
    else if email.Some? && EmailTakenByOther(users, -1, email.value) then (UserNotCreated(ConstraintViolation), users, nextId)
    else (UserCreated(nextId), users + [NewUser(nextId, username, passwordHash, email, fullName, role)], nextId + 1)
  }

  method CreateUser(db: Database, username: string, passwordHash: string, email: Option<string>,
                    fullName: Option<string>, role: UserRole) returns (outcome: UserOutcome)
    modifies db`users, db`nextUserId
    ensures (outcome, db.users, db.nextUserId) ==
      CreateUserSpec(old(db.users), old(db.nextUserId), username, passwordHash, email, fullName, role)
  {
    if !UsernameAvailable(db.users, username) {
      return UserNotCreated(UsernameExists);
    }
    if email.Some? && exists j :: 0 <= j < |db.users| && db.users[j].email == email {
      // the insert fails on the unique email and is rolled back
      return UserNotCreated(ConstraintViolation);
    }
    outcome := UserCreated(db.nextUserId);
    db.users := db.users + [NewUser(db.nextUserId, username, passwordHash, email, fullName, role)];
    db.nextUserId := db.nextUserId + 1;
  }

  function HasRole(role: UserRole): User -> bool {
    (u: User) => u.role == role
  }

  /** A created user is one more user of its role and leaves the other roles' counts alone. */
  lemma CreateAddsOneUserOfRole(users: seq<User>, nextId: int, username: string, passwordHash: string,
                                email: Option<string>, fullName: Option<string>, role: UserRole, other: UserRole)
    requires CreateUserSpec(users, nextId, username, passwordHash, email, fullName, role).0.UserCreated?
    ensures var r := CreateUserSpec(users, nextId, username, passwordHash, email, fullName, role);
      |r.1| == |users| + 1 &&
      Count(r.1, HasRole(other)) == Count(users, HasRole(other)) + (if other == role then 1 else 0)
  {
    CountAppend(users, NewUser(nextId, username, passwordHash, email, fullName, role), HasRole(other));
  }

  /** Creating a user keeps ids fresh and unique and keeps the unique columns unique. */
  lemma CreateKeepsInvariants(users: seq<User>, nextId: int, username: string, passwordHash: string,
                              email: Option<string>, fullName: Option<string>, role: UserRole)
    requires IdsBelow(users, nextId) && UniqueIds(users) && UniqueColumns(users)
    ensures var r := CreateUserSpec(users, nextId, username, passwordHash, email, fullName, role);
      IdsBelow(r.1, r.2) && UniqueIds(r.1) && UniqueColumns(r.1)
  {
    var r := CreateUserSpec(users, nextId, username, passwordHash, email, fullName, role);
    if r.0.UserCreated? {
      var n := |users|;
      forall i, j | 0 <= i < j < |r.1|
        ensures r.1[i].id != r.1[j].id && r.1[i].username != r.1[j].username
        ensures r.1[i].email.Some? ==> r.1[i].email != r.1[j].email
      {
        if j == n {
          assert r.1[i] == users[i];
          assert users[i].email.Some? && users[i].email == email ==> EmailTakenByOther(users, -1, email.value);
        }
      }
    }
  }

  // ---------------------------------------------------------------------
  // The create_*_profile methods
  // ---------------------------------------------------------------------

  datatype ProfileOutcome = ProfileCreated | ProfileNotCreated(why: UserError)

  /**
   * Inserting a role profile keyed by the user's id. The key is the
   * table's primary key and a foreign key to `users`, so an id that already
   * has this profile, or that is no user, fails at commit; the service
   * reports both as an existing profile.
   */
  function CreateProfileSpec<P>(profiles: map<int, P>, users: seq<User>, userId: int, p: P)
    : (r: (ProfileOutcome, map<int, P>))
    ensures r.0 == ProfileNotCreated(ProfileExists) <==> userId in profiles || !IsUser(users, userId)
    ensures r.0.ProfileNotCreated? ==> r.0.why == ProfileExists && r.1 == profiles
    ensures r.0.ProfileCreated? ==>
      userId !in profiles && IsUser(users, userId) && r.1 == profiles[userId := p]
  {
    if userId in profiles || !IsUser(users, userId) then (ProfileNotCreated(ProfileExists), profiles)
    else (ProfileCreated, profiles[userId := p])
  }

  /** A created profile adds exactly its own key. */
  lemma CreateProfileAddsOneKey<P>(profiles: map<int, P>, users: seq<User>, userId: int, p: P)
    requires CreateProfileSpec(profiles, users, userId, p).0.ProfileCreated?
    ensures var r := CreateProfileSpec(profiles, users, userId, p);
      r.1.Keys == profiles.Keys + {userId} && |r.1| == |profiles| + 1 && r.1[userId] == p
  {
  }

  /**
   * `create_student_profile`. A truthy parent id without a parent profile is
   * refused before the insert. A parent id of 0 skips that check and then
   * breaks the parent foreign key, which the service reports, like every
   * integrity error of the insert, as an existing profile.
   */
  function CreateStudentProfileSpec(students: map<int, StudentProfile>, parents: set<int>, users: seq<User>,
                                    userId: int, p: StudentProfile)
    : (r: (ProfileOutcome, map<int, StudentProfile>))
    ensures r.0 == ProfileNotCreated(ParentNotFound) <==> Truthy(p.parentId) && p.parentId.value !in parents
    ensures r.0 == ProfileNotCreated(ProfileExists) <==>
      !(Truthy(p.parentId) && p.parentId.value !in parents) &&
      (userId in students || !IsUser(users, userId) || (p.parentId.Some? && p.parentId.value !in parents))
    ensures r.0.ProfileNotCreated? ==> r.1 == students
    ensures r.0.ProfileCreated? ==>
      r.1 == students[userId := p] && IsUser(users, userId) &&
      (p.parentId.Some? ==> p.parentId.value in parents)
  {
    if Truthy(p.parentId) && p.parentId.value !in parents then (ProfileNotCreated(ParentNotFound), students)
    else if p.parentId.Some? && p.parentId.value !in parents then (ProfileNotCreated(ProfileExists), students)
    else CreateProfileSpec(students, users, userId, p)
  }

  method CreateManagerProfile(db: Database, userId: int, department: Option<string>, accessLevel: int)
    returns (outcome: ProfileOutcome)
    modifies db`managers
    ensures (outcome, db.managers) ==
      CreateProfileSpec(old(db.managers), db.users, userId, ManagerProfile(department, accessLevel))
  {
    if userId in db.managers || !(exists i :: 0 <= i < |db.users| && db.users[i].id == userId) {
      return ProfileNotCreated(ProfileExists);
    }
    db.managers := db.managers[userId := ManagerProfile(department, accessLevel)];
    outcome := ProfileCreated;
  }

  method CreateTeacherProfile(db: Database, userId: int, subject: Option<string>, hireDate: Option<int>,
                              salary: Option<int>) returns (outcome: ProfileOutcome)
    modifies db`teachers
    ensures (outcome, db.teachers) ==
      CreateProfileSpec(old(db.teachers), db.users, userId, TeacherProfile(subject, hireDate, salary))
  {
    if userId in db.teachers || !(exists i :: 0 <= i < |db.users| && db.users[i].id == userId) {
      return ProfileNotCreated(ProfileExists);
    }
    db.teachers := db.teachers[userId := TeacherProfile(subject, hireDate, salary)];
    outcome := ProfileCreated;
  }

  method CreateStudentProfile(db: Database, userId: int, enrollmentDate: Option<int>, gradeLevel: Option<string>,
                              parentId: Option<int>) returns (outcome: ProfileOutcome)
    modifies db`students
    ensures (outcome, db.students) ==
      CreateStudentProfileSpec(old(db.students), db.parents.Keys, db.users, userId,
                               StudentProfile(enrollmentDate, gradeLevel, parentId))
  {
    if parentId.Some? && parentId.value != 0 {
      if parentId.value !in db.parents {
        return ProfileNotCreated(ParentNotFound);
      }
    }
    if userId in db.students || !(exists i :: 0 <= i < |db.users| && db.users[i].id == userId) || (parentId.Some? && parentId.value !in db.parents) {
      return ProfileNotCreated(ProfileExists);
    }
    db.students := db.students[userId := StudentProfile(enrollmentDate, gradeLevel, parentId)];
    outcome := ProfileCreated;
  }

  method CreateParentProfile(db: Database, userId: int, phone: Option<string>, address: Option<string>)
    returns (outcome: ProfileOutcome)
    modifies db`parents
    ensures (outcome, db.parents) ==
      CreateProfileSpec(old(db.parents), db.users, userId, ParentProfile(phone, address))
  {
    if userId in db.parents || !(exists i :: 0 <= i < |db.users| && db.users[i].id == userId) {
      return ProfileNotCreated(ProfileExists);
    }
    db.parents := db.parents[userId := ParentProfile(phone, address)];
    outcome := ProfileCreated;
  }

  method CreateWorkerProfile(db: Database, userId: int, jobTitle: Option<string>, hireDate: Option<int>,
                             hourlyRate: Option<int>) returns (outcome: ProfileOutcome)
    modifies db`workers
    ensures (outcome, db.workers) ==
      CreateProfileSpec(old(db.workers), db.users, userId, WorkerProfile(jobTitle, hireDate, hourlyRate))
  {
    if userId in db.workers || !(exists i :: 0 <= i < |db.users| && db.users[i].id == userId) {
      return ProfileNotCreated(ProfileExists);
    }
    db.workers := db.workers[userId := WorkerProfile(jobTitle, hireDate, hourlyRate)];
    outcome := ProfileCreated;
  }

  // ---------------------------------------------------------------------
  // create_user_with_profile
  // ---------------------------------------------------------------------

  /** The five role-profile tables. */
  datatype Profiles = Profiles(
    managers: map<int, ManagerProfile>,
    teachers: map<int, TeacherProfile>,
    students: map<int, StudentProfile>,
    parents: map<int, ParentProfile>,
    workers: map<int, WorkerProfile>)

  function ProfilesOf(db: Database): Profiles
    reads db`managers, db`teachers, db`students, db`parents, db`workers
  {
    Profiles(db.managers, db.teachers, db.students, db.parents, db.workers)
  }

  predicate HasProfile(ps: Profiles, id: int) {
    id in ps.managers || id in ps.teachers || id in ps.students || id in ps.parents || id in ps.workers
  }

  /**
   * The `profile_data` dictionary; a key that is missing reads as `None`.
   * `hire_date` serves both the teacher and the worker profile.
   */
  datatype ProfileData = ProfileData(
    department: Option<string>, accessLevel: Option<int>,
    subjectSpecialization: Option<string>, hireDate: Option<int>, salary: Option<int>,
    enrollmentDate: Option<int>, gradeLevel: Option<string>, parentId: Option<int>,
    phoneNumber: Option<string>, address: Option<string>,
    jobTitle: Option<string>, hourlyRate: Option<int>)

  /** True when only the table of `role` may differ between the two. */
  predicate OnlyRoleTable(ps: Profiles, qs: Profiles, role: UserRole) {
    (role != Manager ==> qs.managers == ps.managers) &&
    (role != Teacher ==> qs.teachers == ps.teachers) &&
    (role != Student ==> qs.students == ps.students) &&
    (role != Parent ==> qs.parents == ps.parents) &&
    (role != Worker ==> qs.workers == ps.workers)
  }

  /**
   * The role dispatch of `create_user_with_profile`: exactly one profile
   * creator runs, the one of `role`, with the dictionary's values; the
   * manager's access level defaults to 1.
   */
  function CreateRoleProfile(ps: Profiles, users: seq<User>, userId: int, role: UserRole, data: ProfileData)
    : (r: (ProfileOutcome, Profiles))
    ensures OnlyRoleTable(ps, r.1, role)
    ensures r.0.ProfileNotCreated? ==> r.1 == ps
    ensures role == Manager ==>
      (r.0, r.1.managers) ==
      CreateProfileSpec(ps.managers, users, userId, ManagerProfile(data.department, GetOr(data.accessLevel, 1)))
    ensures role == Teacher ==>
      (r.0, r.1.teachers) ==
      CreateProfileSpec(ps.teachers, users, userId, TeacherProfile(data.subjectSpecialization, data.hireDate, data.salary))
    ensures role == Student ==>
      (r.0, r.1.students) ==
      CreateStudentProfileSpec(ps.students, ps.parents.Keys, users, userId,
                               StudentProfile(data.enrollmentDate, data.gradeLevel, data.parentId))
    ensures role == Parent ==>
      (r.0, r.1.parents) == CreateProfileSpec(ps.parents, users, userId, ParentProfile(data.phoneNumber, data.address))
    ensures role == Worker ==>
      (r.0, r.1.workers) ==
      CreateProfileSpec(ps.workers, users, userId, WorkerProfile(data.jobTitle, data.hireDate, data.hourlyRate))
  {
    match role
    case Manager =>
      var (o, t) := CreateProfileSpec(ps.managers, users, userId, ManagerProfile(data.department, GetOr(data.accessLevel, 1)));
      (o, ps.(managers := t))
    case Teacher =>
      var (o, t) := CreateProfileSpec(ps.teachers, users, userId, TeacherProfile(data.subjectSpecialization, data.hireDate, data.salary));
      (o, ps.(teachers := t))
    case Student =>
      var (o, t) := CreateStudentProfileSpec(ps.students, ps.parents.Keys, users, userId,
                                             StudentProfile(data.enrollmentDate, data.gradeLevel, data.parentId));
      (o, ps.(students := t))
    case Parent =>
      var (o, t) := CreateProfileSpec(ps.parents, users, userId, ParentProfile(data.phoneNumber, data.address));
      (o, ps.(parents := t))
    case Worker =>
      var (o, t) := CreateProfileSpec(ps.workers, users, userId, WorkerProfile(data.jobTitle, data.hireDate, data.hourlyRate));
      (o, ps.(workers := t))
  }

  /** The table of `role` holds `id`. */
  predicate HasRoleProfile(ps: Profiles, id: int, role: UserRole) {
    match role
    case Manager => id in ps.managers
    case Teacher => id in ps.teachers
    case Student => id in ps.students
    case Parent => id in ps.parents
    case Worker => id in ps.workers
  }

  /** A successful dispatch leaves the user with a profile of its role. */
  lemma RoleProfileCreated(ps: Profiles, users: seq<User>, userId: int, role: UserRole, data: ProfileData)
    requires CreateRoleProfile(ps, users, userId, role, data).0.ProfileCreated?
    ensures HasRoleProfile(CreateRoleProfile(ps, users, userId, role, data).1, userId, role)
    ensures !HasRoleProfile(ps, userId, role)
  {
  }

  /** The rows of `users` without the first one that has the id: a `db.delete` of that user. */
  function RemoveUser(users: seq<User>, id: int): (r: seq<User>)
    ensures IsUser(users, id) ==> |r| == |users| - 1
    ensures !IsUser(users, id) ==> r == users
    ensures forall a :: 0 <= a < |r| ==> r[a] in users
  {
    match First(users, HasUserId(id))
    case None => users
    case Some(i) =>
      var rest := users[..i] + users[i + 1..];
      assert forall a :: 0 <= a < |rest| ==> rest[a] == users[if a < i then a else a + 1];
      rest
  }

  /** Deleting a user that was just appended, with an id no other row has, gives the table back. */
  lemma RemoveAppended(users: seq<User>, u: User)
    requires forall i :: 0 <= i < |users| ==> users[i].id != u.id
    ensures RemoveUser(users + [u], u.id) == users
  {
    FirstAppend(users, u, HasUserId(u.id));
    assert (users + [u])[..|users|] == users;
  }

  /**
   * `create_user_with_profile`. The base user is created first and its
   * error returned unchanged. Then the profile of the user's role is
   * created; if that fails, the user is deleted again and committed, and the
   * profile's error is returned. The id the deleted user took stays used.
   */
  function CreateUserWithProfileSpec(users: seq<User>, nextId: int, ps: Profiles, username: string,
                                     passwordHash: string, email: Option<string>, fullName: Option<string>,
                                     role: UserRole, data: ProfileData)
    : (r: (UserOutcome, seq<User>, int, Profiles))
    ensures var base := CreateUserSpec(users, nextId, username, passwordHash, email, fullName, role);
      base.0.UserNotCreated? ==> r == (base.0, users, nextId, ps)
    ensures r.0.UserCreated? ==>
      r.0.id == nextId && r.2 == nextId + 1 &&
      r.1 == users + [NewUser(nextId, username, passwordHash, email, fullName, role)] &&
      OnlyRoleTable(ps, r.3, role) && HasRoleProfile(r.3, nextId, role)
    ensures r.0.UserNotCreated? ==> r.3 == ps
  {
    var base := CreateUserSpec(users, nextId, username, passwordHash, email, fullName, role);
    if base.0.UserNotCreated? then (base.0, users, nextId, ps)
    else
      var profile := CreateRoleProfile(ps, base.1, nextId, role, data);
      if profile.0.ProfileNotCreated? then
        (UserNotCreated(profile.0.why), RemoveUser(base.1, nextId), base.2, ps)
      else
        RoleProfileCreated(ps, base.1, nextId, role, data);
        (base.0, base.1, base.2, profile.1)
  }

  /** When the profile fails, no user persists: the table is as before and the reason is the profile's. */
  lemma NoUserPersistsOnFailure(users: seq<User>, nextId: int, ps: Profiles, username: string,
                                passwordHash: string, email: Option<string>, fullName: Option<string>,
                                role: UserRole, data: ProfileData)
    requires IdsBelow(users, nextId)
    requires CreateUserSpec(users, nextId, username, passwordHash, email, fullName, role).0.UserCreated?
    ensures var r := CreateUserWithProfileSpec(users, nextId, ps, username, passwordHash, email, fullName, role, data);
      var users1 := users + [NewUser(nextId, username, passwordHash, email, fullName, role)];
      r.0.UserNotCreated? ==>
        r.1 == users && !IsUser(r.1, nextId) &&
        r.0.why == CreateRoleProfile(ps, users1, nextId, role, data).0.why
  {
    var u := NewUser(nextId, username, passwordHash, email, fullName, role);
    RemoveAppended(users, u);
  }

  method CreateUserWithProfile(db: Database, username: string, passwordHash: string, email: Option<string>,
                               fullName: Option<string>, role: UserRole, data: ProfileData)
    returns (outcome: UserOutcome)
    modifies db`users, db`nextUserId, db`managers, db`teachers, db`students, db`parents, db`workers
    ensures (outcome, db.users, db.nextUserId, ProfilesOf(db)) ==
      CreateUserWithProfileSpec(old(db.users), old(db.nextUserId), old(ProfilesOf(db)), username, passwordHash,
                                email, fullName, role, data)
  {
    outcome := CreateUser(db, username, passwordHash, email, fullName, role);
    if outcome.UserNotCreated? {
      return;
    }
    var id := outcome.id;
    ghost var ps := ProfilesOf(db);
    var profile: ProfileOutcome;
    match role {
      case Manager =>
        profile := CreateManagerProfile(db, id, data.department, GetOr(data.accessLevel, 1));
      case Teacher =>
        profile := CreateTeacherProfile(db, id, data.subjectSpecialization, data.hireDate, data.salary);
      case Student =>
        profile := CreateStudentProfile(db, id, data.enrollmentDate, data.gradeLevel, data.parentId);
      case Parent =>
        profile := CreateParentProfile(db, id, data.phoneNumber, data.address);
      case Worker =>
        profile := CreateWorkerProfile(db, id, data.jobTitle, data.hireDate, data.hourlyRate);
    }
    assert (profile, ProfilesOf(db)) == CreateRoleProfile(ps, db.users, id, role, data);
    if profile.ProfileNotCreated? {
      // roll the user creation back by deleting the new user
      db.users := RemoveUser(db.users, id);
      outcome := UserNotCreated(profile.why);
    }
  }

  // ---------------------------------------------------------------------
  // update_user
  // ---------------------------------------------------------------------

  /** Python truthiness of an optional string: `None` and "" are false. */
  predicate Present(s: Option<string>) {
    s.Some? && |s.value| > 0
  }

  datatype UpdateOutcome = UserUpdated | NotUpdated(why: UserError)

  /**
   * `update_user`: a missing user is reported; otherwise only a truthy email
   * and a truthy full name are written. An email another user already has
   * breaks the unique column at commit, which rolls the update back.
   */
  function UpdateUserSpec(users: seq<User>, id: int, email: Option<string>, fullName: Option<string>)
    : (r: (UpdateOutcome, seq<User>))
    ensures r.0 == NotUpdated(UserNotFound) <==> !IsUser(users, id)
    ensures r.0 == NotUpdated(ConstraintViolation) <==>
      IsUser(users, id) && Present(email) &&
      EmailTakenByOther(users, First(users, HasUserId(id)).value, email.value)
    ensures r.0.NotUpdated? ==> r.1 == users
    ensures r.0.UserUpdated? ==>
      var i := First(users, HasUserId(id)).value;
      |r.1| == |users| && users[i].id == id &&
      (forall j :: 0 <= j < |users| && j != i ==> r.1[j] == users[j]) &&
      r.1[i].email == (if Present(email) then email else users[i].email) &&
      r.1[i].fullName == (if Present(fullName) then fullName else users[i].fullName) &&
      r.1[i].(email := users[i].email, fullName := users[i].fullName) == users[i]
  {
    match First(users, HasUserId(id))
    case None => (NotUpdated(UserNotFound), users)
    case Some(i) =>
      if Present(email) && EmailTakenByOther(users, i, email.value) then (NotUpdated(ConstraintViolation), users)
      else
        var u := users[i];
        var u1 := if Present(email) then u.(email := email) else u;
        var u2 := if Present(fullName) then u1.(fullName := fullName) else u1;
        (UserUpdated, users[i := u2])
  }

  method UpdateUser(db: Database, id: int, email: Option<string>, fullName: Option<string>)
    returns (outcome: UpdateOutcome)
    modifies db`users
    ensures (outcome, db.users) == UpdateUserSpec(old(db.users), id, email, fullName)
  {
    var found := First(db.users, HasUserId(id));
    if found.None? {
      return NotUpdated(UserNotFound);
    }
    var i := found.value;
    var u := db.users[i];
    if email.Some? && |email.value| > 0 {
      u := u.(email := email);
    }
    if fullName.Some? && |fullName.value| > 0 {
      u := u.(fullName := fullName);
    }
    if email.Some? && |email.value| > 0 && exists j :: 0 <= j < |db.users| && j != i && db.users[j].email == email {
      // the commit fails on the unique email and is rolled back
      return NotUpdated(ConstraintViolation);
    }
    db.users := db.users[i := u];
    outcome := UserUpdated;
  }

  /** An update with nothing truthy changes nothing, and no update breaks the unique columns or ids. */
  lemma UpdateLaws(users: seq<User>, id: int, email: Option<string>, fullName: Option<string>)
    ensures !Present(email) && !Present(fullName) ==> UpdateUserSpec(users, id, email, fullName).1 == users
    ensures UniqueIds(users) ==> UniqueIds(UpdateUserSpec(users, id, email, fullName).1)
    ensures UniqueColumns(users) ==> UniqueColumns(UpdateUserSpec(users, id, email, fullName).1)
  {
    var r := UpdateUserSpec(users, id, email, fullName);
    if r.0.UserUpdated? {
      var i := First(users, HasUserId(id)).value;
      if !Present(email) && !Present(fullName) {
        assert r.1 == users[i := users[i]];
      }
      if UniqueColumns(users) {
        forall a, b | 0 <= a < b < |r.1|
          ensures r.1[a].username != r.1[b].username
          ensures r.1[a].email.Some? ==> r.1[a].email != r.1[b].email
        {
          if a == i && Present(email) {
            assert !EmailTakenByOther(users, i, email.value);
            assert users[b].email != email;
          } else if b == i && Present(email) {
            assert users[a].email != email;
          }
        }
      }
    }
  }

  // ---------------------------------------------------------------------
  // delete_user
  // ---------------------------------------------------------------------

  datatype DeleteOutcome = UserDeleted | NotDeleted(why: UserError)

  /**
   * Some payment or queue item refers to user `id`. Both keys are NOT NULL and
   * their reverse relationships (`payer.payments`, `user.queue_items`) have
   * no delete cascade.
   */
  predicate ReferencedByRows(payments: seq<PaymentModel.Payment>, items: seq<QueueModel.QueueItem>, id: int) {
    (exists i :: 0 <= i < |payments| && payments[i].payerId == id) ||
    (exists i :: 0 <= i < |items| && items[i].userId == id)
  }

  /**
   * `delete_user` as the session runs it. Every role profile points back at
   * its user through a relationship whose reverse side has no delete
   * cascade, so deleting the user makes the session blank out the profile's
   * key first; that key is the profile's primary key, the session refuses,
   * and the error path rolls back. Payments and queue items referring to the
   * user are blanked out the same way, their NOT NULL key refuses, and the
   * delete rolls back too.
   */
  function DeleteUserAsWritten(users: seq<User>, ps: Profiles, payments: seq<PaymentModel.Payment>,
                               items: seq<QueueModel.QueueItem>, id: int): (r: (DeleteOutcome, seq<User>, Profiles))
    ensures r.0 == NotDeleted(UserNotFound) <==> !IsUser(users, id)
    ensures r.0 == NotDeleted(ProfileBlocksDelete) <==> IsUser(users, id) && HasProfile(ps, id)
    ensures r.0 == NotDeleted(RowsBlockDelete) <==>
      IsUser(users, id) && !HasProfile(ps, id) && ReferencedByRows(payments, items, id)
    ensures r.0.NotDeleted? ==> r.1 == users && r.2 == ps
    ensures r.0.UserDeleted? ==>
      r.1 == RemoveUser(users, id) && r.2 == ps && !HasProfile(ps, id) && !ReferencedByRows(payments, items, id)
  {
    if !IsUser(users, id) then (NotDeleted(UserNotFound), users, ps)
    else if HasProfile(ps, id) then (NotDeleted(ProfileBlocksDelete), users, ps)
    else if ReferencedByRows(payments, items, id) then (NotDeleted(RowsBlockDelete), users, ps)
    else (UserDeleted, RemoveUser(users, id), ps)
  }

  /** The schema's cascade: the user's own profiles go, and children of a deleted parent lose their parent id. */
  function CascadeProfiles(ps: Profiles, id: int): (qs: Profiles)
    ensures !HasProfile(qs, id)
    ensures forall k :: k in qs.students ==> qs.students[k].parentId != Some(id)
  {
    var students := map k | k in ps.students && k != id ::
      if ps.students[k].parentId == Some(id) then ps.students[k].(parentId := None) else ps.students[k];
    Profiles(ps.managers - {id}, ps.teachers - {id}, students, ps.parents - {id}, ps.workers - {id})
  }

  /**
   * `delete_user` as the schema declares it: the user row goes, the
   * `ON DELETE CASCADE` keys take the user's profiles with it, and the
   * `ON DELETE SET NULL` parent key of its children is cleared.
   */
  function DeleteUserSpec(users: seq<User>, ps: Profiles, id: int): (r: (DeleteOutcome, seq<User>, Profiles))
    ensures r.0 == NotDeleted(UserNotFound) <==> !IsUser(users, id)
    ensures r.0.NotDeleted? ==> r.1 == users && r.2 == ps
    ensures r.0.UserDeleted? ==> r.1 == RemoveUser(users, id) && r.2 == CascadeProfiles(ps, id)
  {
    if !IsUser(users, id) then (NotDeleted(UserNotFound), users, ps)
    else (UserDeleted, RemoveUser(users, id), CascadeProfiles(ps, id))
  }

  /** A user with a profile cannot be deleted as written, although the schema would delete it. */
  lemma DeleteWithProfileRefused(users: seq<User>, ps: Profiles, id: int)
    requires IsUser(users, id) && HasProfile(ps, id)
    ensures forall payments, items :: DeleteUserAsWritten(users, ps, payments, items, id).0 == NotDeleted(ProfileBlocksDelete)
    ensures forall payments, items :: DeleteUserAsWritten(users, ps, payments, items, id).1 == users
    ensures DeleteUserSpec(users, ps, id).0 == UserDeleted
  {
  }

  /** A teacher made by `create_user_with_profile` is one such user. */
  lemma TeacherCannotBeDeleted()
    ensures var users := [NewUser(1, "teacher1", "hash", Some("teacher@example.com"), Some("John Teacher"), Teacher)];
      var ps := Profiles(map[], map[1 := TeacherProfile(Some("Math"), None, None)], map[], map[], map[]);
      DeleteUserAsWritten(users, ps, [], [], 1) == (NotDeleted(ProfileBlocksDelete), users, ps)
  {
    var users := [NewUser(1, "teacher1", "hash", Some("teacher@example.com"), Some("John Teacher"), Teacher)];
    assert users[0].id == 1;
  }

  /** A user without any profile who has made a payment cannot be deleted as written either. */
  lemma PayerCannotBeDeleted()
    ensures var users := [NewUser(1, "parent1", "hash", None, None, Parent)];
      var ps := Profiles(map[], map[], map[], map[], map[]);
      var payments := [PaymentModel.Payment(1, Some(5000), PaymentModel.Tuition, PaymentModel.Cash, Some(0),
                                            PaymentModel.Completed, None, None)];
      DeleteUserAsWritten(users, ps, payments, [], 1) == (NotDeleted(RowsBlockDelete), users, ps) &&
      DeleteUserSpec(users, ps, 1).0 == UserDeleted
  {
    var users := [NewUser(1, "parent1", "hash", None, None, Parent)];
    var payments := [PaymentModel.Payment(1, Some(5000), PaymentModel.Tuition, PaymentModel.Cash, Some(0),
                                          PaymentModel.Completed, None, None)];
    assert users[0].id == 1;
    assert payments[0].payerId == 1;
    assert ReferencedByRows(payments, [], 1);
  }

  /** Where the two agree: a user without any profile is deleted the same way by both. */
  lemma DeleteAgreesWithoutProfile(users: seq<User>, ps: Profiles, payments: seq<PaymentModel.Payment>,
                                   items: seq<QueueModel.QueueItem>, id: int)
    requires !HasProfile(ps, id) && !ReferencedByRows(payments, items, id)
    requires forall k :: k in ps.students ==> ps.students[k].parentId != Some(id)
    ensures DeleteUserAsWritten(users, ps, payments, items, id).0 == DeleteUserSpec(users, ps, id).0
    ensures DeleteUserAsWritten(users, ps, payments, items, id).1 == DeleteUserSpec(users, ps, id).1
    ensures DeleteUserSpec(users, ps, id).2 == ps
  {
    var qs := CascadeProfiles(ps, id);
    assert qs.managers == ps.managers && qs.teachers == ps.teachers;
    assert qs.parents == ps.parents && qs.workers == ps.workers;
    assert qs.students == ps.students;
  }

  /** With unique ids, a deleted user is gone, every other user and every other profile stays. */
  lemma DeleteRemovesOnlyIt(users: seq<User>, ps: Profiles, id: int)
    requires UniqueIds(users)
    ensures var r := DeleteUserSpec(users, ps, id);
      !IsUser(r.1, id) &&
      (r.0.UserDeleted? ==> !HasProfile(r.2, id)) &&
      (forall j :: 0 <= j < |users| && users[j].id != id ==> users[j] in r.1) &&
      (forall k :: k in ps.managers && k != id ==> k in r.2.managers && r.2.managers[k] == ps.managers[k]) &&
      (forall k :: k in ps.students && k != id ==>
        (k in r.2.students && r.2.students[k].(parentId := ps.students[k].parentId) == ps.students[k]))
  {
    match First(users, HasUserId(id))
    case None =>
    case Some(i) =>
      var rest := users[..i] + users[i + 1..];
      assert RemoveUser(users, id) == rest;
      forall j | 0 <= j < |users| && users[j].id != id ensures users[j] in rest {
        if j < i {
          assert rest[j] == users[j];
        } else {
          assert rest[j - 1] == users[j];
        }
      }
      forall a | 0 <= a < |rest| ensures rest[a].id != id {
        if a < i {
          assert rest[a] == users[a];
        } else {
          assert rest[a] == users[a + 1];
        }
      }
  }

  method DeleteUser(db: Database, id: int) returns (outcome: DeleteOutcome)
    modifies db`users, db`managers, db`teachers, db`students, db`parents, db`workers
    ensures (outcome, db.users, ProfilesOf(db)) == DeleteUserSpec(old(db.users), old(ProfilesOf(db)), id)
  {
    if !exists i :: 0 <= i < |db.users| && db.users[i].id == id {
      return NotDeleted(UserNotFound);
    }
    db.users := RemoveUser(db.users, id);
    var cascaded := CascadeProfiles(ProfilesOf(db), id);
    db.managers, db.teachers, db.students := cascaded.managers, cascaded.teachers, cascaded.students;
    db.parents, db.workers := cascaded.parents, cascaded.workers;
    outcome := UserDeleted;
  }
}
