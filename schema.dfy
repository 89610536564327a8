/** The three tables of the backend (users, courses, lessons) as records, the
    constraints their model definitions declare, and the views handlers send back. */
module Schema {
  import opened Wrappers

  /** The `ENUM("student", "instructor")` column. */
  datatype Role = Student | Instructor

  function RoleName(r: Role): string {
    match r
    case Student => "student"
    case Instructor => "instructor"
  }

  /** Which strings the role column accepts. */
  function ParseRole(s: string): (r: Option<Role>)
    ensures r.Some? <==> (s == "student" || s == "instructor")
    ensures r.Some? ==> RoleName(r.value) == s
  {
    if s == "student" then Some(Student)
    else if s == "instructor" then Some(Instructor)
    else None
  }

  /** The column default of `role`. */
  const DefaultRole: Role := Student

  /** A row of `users`. Strings are never null here; `address` and `profilePicture`
      are the two nullable columns. `password` holds the bcrypt hash. */
  datatype User = User(
    userId: nat,
    username: string,
    email: string,
    password: string,
    address: Option<string>,
    phoneNumber: string,
    role: Role,
    isVerified: bool,
    isActive: bool,
    profilePicture: Option<string>)

  /** A row of `courses`; `thumbnail` is the only nullable column. */
  datatype Course = Course(
    courseId: nat,
    title: string,
    description: string,
    thumbnail: Option<string>,
    instructorId: nat)

  /** A row of `lessons`. `courseId` is a plain integer column: no reference to
      `courses` is declared, so nothing cascades and nothing checks it. */
  datatype Lesson = Lesson(
    lessonId: nat,
    title: string,
    content: string,
    courseId: int)

  /** A row as `User.create` stores it when the caller gives no value for the
      columns that have defaults. */
  function NewUserRow(id: nat, username: string, email: string, password: string,
                      address: Option<string>, phoneNumber: string, role: Role): (u: User)
    ensures u.userId == id && u.username == username && u.email == email && u.password == password
    ensures u.address == address && u.phoneNumber == phoneNumber && u.role == role
    ensures !u.isVerified && u.isActive && u.profilePicture.None?
  {
    User(id, username, email, password, address, phoneNumber, role, false, true, None)
  }

  predicate EmailTaken(users: map<nat, User>, email: string) {
    exists id :: id in users && users[id].email == email
  }

  predicate UsernameTaken(users: map<nat, User>, username: string) {
    exists id :: id in users && users[id].username == username
  }

  /** The `unique: true` constraint on `email`. */
  predicate UniqueEmails(users: map<nat, User>) {
    forall i, j :: i in users && j in users && users[i].email == users[j].email ==> i == j
  }

  /** The `unique: true` constraint on `username`. */
  predicate UniqueUsernames(users: map<nat, User>) {
    forall i, j :: i in users && j in users && users[i].username == users[j].username ==> i == j
  }

  /** Every row sits under its own auto-incremented primary key, below the next key to hand out. */
  predicate UsersValid(users: map<nat, User>, nextId: nat) {
    (forall id :: id in users ==> 0 < id < nextId && users[id].userId == id)
    && UniqueEmails(users) && UniqueUsernames(users)
  }

  predicate CoursesValid(courses: map<nat, Course>, nextId: nat) {
    forall id :: id in courses ==> 0 < id < nextId && courses[id].courseId == id
  }

  predicate LessonsValid(lessons: map<nat, Lesson>, nextId: nat) {
    forall id :: id in lessons ==> 0 < id < nextId && lessons[id].lessonId == id
  }

  /** Inserting a row under the next key keeps the users table valid exactly when
      neither its email nor its username is taken; the counter moves past the new key. */
  lemma InsertUserKeepsValid(users: map<nat, User>, nextId: nat, u: User)
    requires UsersValid(users, nextId) && 0 < nextId && u.userId == nextId
    ensures UsersValid(users[nextId := u], nextId + 1)
            <==> !EmailTaken(users, u.email) && !UsernameTaken(users, u.username)
  {
    var users' := users[nextId := u];
    assert nextId !in users;
    if EmailTaken(users, u.email) {
      var id :| id in users && users[id].email == u.email;
      assert users'[id].email == users'[nextId].email && id != nextId;
    }
    if UsernameTaken(users, u.username) {
      var id :| id in users && users[id].username == u.username;
      assert users'[id].username == users'[nextId].username && id != nextId;
    }
  }

  /** What a successful registration returns: no password, phone or address. */
  datatype UserView = UserView(id: nat, username: string, email: string, role: string)

  function Sanitised(u: User): (v: UserView)
    ensures v.id == u.userId && v.username == u.username && v.email == u.email
    ensures ParseRole(v.role) == Some(u.role)
  {
    UserView(u.userId, u.username, u.email, RoleName(u.role))
  }

  /** What the profile endpoints return. */
  datatype ProfileView = ProfileView(
    username: string,
    email: string,
    phoneNumber: string,
    address: Option<string>,
    role: string,
    profilePicture: Option<string>)
}
