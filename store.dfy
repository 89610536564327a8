/** The database the controllers write to: one table per model, each a map from
    primary key to row, with the auto-increment counters. Every writing handler
    is a method that asks the controller's decision function what to answer and,
    on success, stores the row that function produced. */
module Store {
  import opened Wrappers
  import opened Schema
  import AC = AuthController
  import CC = CourseController
  import LC = LessonController
  import UC = UserController

  class Database {
    var users: map<nat, User>
    var courses: map<nat, Course>
    var lessons: map<nat, Lesson>
    var nextUserId: nat
    var nextCourseId: nat
    var nextLessonId: nat

    /** The model constraints: keys below the counters and stored in their rows,
        unique emails and usernames. */
    ghost predicate Valid()
      reads this
    {
      nextUserId >= 1 && nextCourseId >= 1 && nextLessonId >= 1
      && UsersValid(users, nextUserId) && CoursesValid(courses, nextCourseId)
      && LessonsValid(lessons, nextLessonId)
    }

    /** Empty tables; auto-increment keys start at 1. */
    constructor ()
      ensures Valid()
      ensures users == map[] && courses == map[] && lessons == map[]
    {
      users, courses, lessons := map[], map[], map[];
      nextUserId, nextCourseId, nextLessonId := 1, 1, 1;
    }

    /** `registerUser`: on success the row `User.create` makes (defaults for the
        flags and the picture) goes in under the next key, and the answer is the
        sanitised view of it; any failure leaves the tables as they were. */
    method RegisterUser(body: AC.RegisterBody, hash: string -> string, isEmail: string -> bool)
      returns (r: Reply<UserView>)
      requires Valid()
      modifies this
      ensures Valid()
      ensures courses == old(courses) && lessons == old(lessons)
      ensures nextCourseId == old(nextCourseId) && nextLessonId == old(nextLessonId)
      ensures var d := AC.Register(old(users), body, hash, isEmail);
              if d.Fail? then
                r == Fail(d.status, d.message) && users == old(users) && nextUserId == old(nextUserId)
              else
                var row := NewUserRow(old(nextUserId), d.value.username, d.value.email, d.value.passwordHash,
                                      d.value.address, d.value.phoneNumber, d.value.role);
                users == old(users)[old(nextUserId) := row] && nextUserId == old(nextUserId) + 1
                && r == Ok(201, Sanitised(row))
    {
      var d := AC.Register(users, body, hash, isEmail);
      if d.Fail? {
        r := Fail(d.status, d.message);
        return;
      }
      var row := NewUserRow(nextUserId, d.value.username, d.value.email, d.value.passwordHash,
                            d.value.address, d.value.phoneNumber, d.value.role);
      InsertUserKeepsValid(users, nextUserId, row);
      users := users[nextUserId := row];
      nextUserId := nextUserId + 1;
      r := Ok(201, Sanitised(row));
    }

    /** `createCourse`: on success the new row goes in under the next key. */
    method CreateCourse(caller: User, body: CC.CourseBody, file: Option<string>) returns (r: Reply<Course>)
      requires Valid()
      modifies this
      ensures Valid()
      ensures users == old(users) && lessons == old(lessons)
      ensures nextUserId == old(nextUserId) && nextLessonId == old(nextLessonId)
      ensures r == CC.NewCourse(caller, body, file, old(nextCourseId))
      ensures r.Fail? ==> courses == old(courses) && nextCourseId == old(nextCourseId)
      ensures r.Ok? ==> courses == old(courses)[old(nextCourseId) := r.value]
                        && nextCourseId == old(nextCourseId) + 1
    {
      r := CC.NewCourse(caller, body, file, nextCourseId);
      if r.Ok? {
        courses := courses[nextCourseId := r.value];
        nextCourseId := nextCourseId + 1;
      }
    }

    /** `updateCourse`: only the owner's request changes the row, and only that row. */
    method UpdateCourse(caller: User, id: nat, body: CC.CourseBody, file: Option<string>)
      returns (r: Reply<Course>)
      requires Valid()
      modifies this
      ensures Valid()
      ensures users == old(users) && lessons == old(lessons)
      ensures nextUserId == old(nextUserId) && nextCourseId == old(nextCourseId)
      ensures nextLessonId == old(nextLessonId)
      ensures r == CC.CourseEdit(old(courses), caller, id, body, file)
      ensures r.Fail? ==> courses == old(courses)
      ensures r.Ok? ==> courses == old(courses)[id := r.value] && r.value.courseId == id
    {
      r := CC.CourseEdit(courses, caller, id, body, file);
      if r.Ok? {
        courses := courses[id := r.value];
      }
    }

    /** `deleteCourse`: only the owner's request removes the row. The course's
        lessons stay in their table. */
    method DeleteCourse(caller: User, id: nat) returns (r: Reply<string>)
      requires Valid()
      modifies this
      ensures Valid()
      ensures users == old(users) && lessons == old(lessons)
      ensures nextUserId == old(nextUserId) && nextCourseId == old(nextCourseId)
      ensures nextLessonId == old(nextLessonId)
      ensures r == CC.CourseRemoval(old(courses), caller, id)
      ensures r.Fail? ==> courses == old(courses)
      ensures r.Ok? ==> courses == old(courses) - {id}
    {
      r := CC.CourseRemoval(courses, caller, id);
      if r.Ok? {
        courses := courses - {id};
      }
    }

    /** `createLesson`: on success the new row goes in under the next key. */
    method CreateLesson(body: LC.LessonBody) returns (r: Reply<Lesson>)
      requires Valid()
      modifies this
      ensures Valid()
      ensures users == old(users) && courses == old(courses)
      ensures nextUserId == old(nextUserId) && nextCourseId == old(nextCourseId)
      ensures r == LC.NewLesson(body, old(nextLessonId))
      ensures r.Fail? ==> lessons == old(lessons) && nextLessonId == old(nextLessonId)
      ensures r.Ok? ==> lessons == old(lessons)[old(nextLessonId) := r.value]
                        && nextLessonId == old(nextLessonId) + 1
    {
      r := LC.NewLesson(body, nextLessonId);
      if r.Ok? {
        lessons := lessons[nextLessonId := r.value];
        nextLessonId := nextLessonId + 1;
      }
    }

    /** `updateLesson`: any existing lesson is changed, whoever asks. */
    method UpdateLesson(id: nat, body: LC.LessonBody) returns (r: Reply<Lesson>)
      requires Valid()
      modifies this
      ensures Valid()
      ensures users == old(users) && courses == old(courses)
      ensures nextUserId == old(nextUserId) && nextCourseId == old(nextCourseId)
      ensures nextLessonId == old(nextLessonId)
      ensures r == LC.LessonEdit(old(lessons), id, body)
      ensures r.Fail? ==> lessons == old(lessons)
      ensures r.Ok? ==> lessons == old(lessons)[id := r.value] && r.value.lessonId == id
    {
      r := LC.LessonEdit(lessons, id, body);
      if r.Ok? {
        lessons := lessons[id := r.value];
      }
    }

    /** `deleteLesson`: any existing lesson is removed, whoever asks. */
    method DeleteLesson(id: nat) returns (r: Reply<string>)
      requires Valid()
      modifies this
      ensures Valid()
      ensures users == old(users) && courses == old(courses)
      ensures nextUserId == old(nextUserId) && nextCourseId == old(nextCourseId)
      ensures nextLessonId == old(nextLessonId)
      ensures r == LC.LessonRemoval(old(lessons), id)
      ensures r.Fail? ==> lessons == old(lessons)
      ensures r.Ok? ==> lessons == old(lessons) - {id}
    {
      r := LC.LessonRemoval(lessons, id);
      if r.Ok? {
        lessons := lessons - {id};
      }
    }

    /** `updateUserProfile` for the caller's row: the edited row is saved unless
        its username belongs to another row, in which case the save throws and
        the answer is 500 with the table unchanged. */
    method UpdateUserProfile(callerId: nat, body: UC.ProfileBody, file: Option<string>)
      returns (r: Reply<ProfileView>)
      requires Valid() && callerId in users
      modifies this
      ensures Valid()
      ensures courses == old(courses) && lessons == old(lessons)
      ensures nextUserId == old(nextUserId) && nextCourseId == old(nextCourseId)
      ensures nextLessonId == old(nextLessonId)
      ensures var v := UC.ProfileEdit(old(users)[callerId], body, file);
              if UC.SaveConflicts(old(users), callerId, v) then
                r == Fail(500, UC.MsgServerError) && users == old(users)
              else
                r == Ok(200, UC.Profile(v)) && users == old(users)[callerId := v]
    {
      var v := UC.ProfileEdit(users[callerId], body, file);
      if UC.SaveConflicts(users, callerId, v) {
        r := Fail(500, UC.MsgServerError);
        return;
      }
      users := users[callerId := v];
      r := Ok(200, UC.Profile(v));
    }
  }
}
