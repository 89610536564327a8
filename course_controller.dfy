/** The decisions of the course controller over the courses table: who may
    create, change and remove a course, what a created or changed row holds,
    and which rows a caller is shown. Applying them to the table is
    `Store.Database`. */
module CourseController {
  import opened Wrappers
  import opened Text
  import opened Schema
  import opened Uploads

  /** The JSON body of course create and update. */
  datatype CourseBody = CourseBody(title: Option<string>, description: Option<string>)

  const MsgFieldsRequired := "All fields required"
  const MsgCourseNotFound := "Course not found"
  const MsgNotAuthorized := "Not authorized"
  const MsgCourseDeleted := "Course deleted successfully"

  /** The public path of a stored thumbnail. */
  function ThumbnailPath(filename: string): (p: string)
    ensures StartsWith(p, "/uploads/courses/") && p[|"/uploads/courses/"|..] == filename
  {
    CourseUpload.publicDir + filename
  }

  /** `createCourse` for a caller, with the stored thumbnail name if a file came
      with the request and `id` the key the table hands out next. */
  function NewCourse(caller: User, body: CourseBody, file: Option<string>, id: nat): (r: Reply<Course>)
    ensures r.Fail? <==> !Truthy(body.title) || !Truthy(body.description)
    ensures r.Fail? ==> r == Fail(400, MsgFieldsRequired)
    ensures r.Ok? ==> r.status == 201 && r.value.courseId == id
                      && r.value.title == body.title.value && r.value.title != ""
                      && r.value.description == body.description.value && r.value.description != ""
                      && r.value.instructorId == caller.userId
                      && (r.value.thumbnail.Some? <==> file.Some?)
                      && (file.Some? ==> r.value.thumbnail == Some(ThumbnailPath(file.value)))
  {
    if !Truthy(body.title) || !Truthy(body.description) then Fail(400, MsgFieldsRequired)
    else
      var thumbnail := if file.Some? then Some(ThumbnailPath(file.value)) else None;
      Ok(201, Course(id, body.title.value, body.description.value, thumbnail, caller.userId))
  }

  /** The two checks update and delete share: an unknown id is 404, and only then
      is the owner compared with the caller, a stranger getting 403. */
  function OwnerCheck(courses: map<nat, Course>, caller: User, id: nat): (r: Option<Reply<Course>>)
    ensures r == Some(Fail(404, MsgCourseNotFound)) <==> id !in courses
    ensures r == Some(Fail(403, MsgNotAuthorized)) <==> id in courses && courses[id].instructorId != caller.userId
    ensures r.None? <==> id in courses && courses[id].instructorId == caller.userId
  {
    if id !in courses then Some(Fail(404, MsgCourseNotFound))
    else if courses[id].instructorId != caller.userId then Some(Fail(403, MsgNotAuthorized))
    else None
  }

  /** `updateCourse`: after the checks, a title or description the body leaves
      out keeps its stored value (an update with `undefined` leaves the column
      alone), and the thumbnail is replaced only when a new file came. */
  function CourseEdit(courses: map<nat, Course>, caller: User, id: nat, body: CourseBody,
                      file: Option<string>): (r: Reply<Course>)
    ensures id !in courses <==> r == Fail(404, MsgCourseNotFound)
    ensures r == Fail(403, MsgNotAuthorized) <==> id in courses && courses[id].instructorId != caller.userId
    ensures r.Ok? <==> id in courses && courses[id].instructorId == caller.userId
    ensures r.Ok? ==> r.status == 200
                      && r.value.courseId == courses[id].courseId && r.value.instructorId == courses[id].instructorId
                      && (body.title.None? ==> r.value.title == courses[id].title)
                      && (body.title.Some? ==> r.value.title == body.title.value)
                      && (body.description.None? ==> r.value.description == courses[id].description)
                      && (body.description.Some? ==> r.value.description == body.description.value)
                      && (file.None? ==> r.value.thumbnail == courses[id].thumbnail)
                      && (file.Some? ==> r.value.thumbnail == Some(ThumbnailPath(file.value)))
  {
    match OwnerCheck(courses, caller, id)
    case Some(failure) => failure
    case None =>
      var c := courses[id];
      var thumbnail := if file.Some? then Some(ThumbnailPath(file.value)) else c.thumbnail;
      Ok(200, c.(title := body.title.GetOr(c.title),
                 description := body.description.GetOr(c.description),
                 thumbnail := thumbnail))
  }

  /** `deleteCourse`: the same checks in the same order, then the row goes. */
  function CourseRemoval(courses: map<nat, Course>, caller: User, id: nat): (r: Reply<string>)
    ensures id !in courses <==> r == Fail(404, MsgCourseNotFound)
    ensures r == Fail(403, MsgNotAuthorized) <==> id in courses && courses[id].instructorId != caller.userId
    ensures r.Ok? <==> id in courses && courses[id].instructorId == caller.userId
    ensures r.Ok? ==> r == Ok(200, MsgCourseDeleted)
  {
    match OwnerCheck(courses, caller, id)
    case Some(failure) => Fail(failure.status, failure.message)
    case None => Ok(200, MsgCourseDeleted)
  }

  /** Only the owner can change or remove a course: any other caller gets 403
      for an existing id, whatever the body and the file. */
  lemma StrangersAreRefused(courses: map<nat, Course>, caller: User, id: nat, body: CourseBody,
                            file: Option<string>)
    requires id in courses && courses[id].instructorId != caller.userId
    ensures CourseEdit(courses, caller, id, body, file) == Fail(403, MsgNotAuthorized)
    ensures CourseRemoval(courses, caller, id) == Fail(403, MsgNotAuthorized)
  {
  }

  /** Updating never hands a course to someone else: the owner stays the owner,
      so a stranger stays refused after any number of updates. */
  lemma EditKeepsOwner(courses: map<nat, Course>, caller: User, id: nat, body: CourseBody,
                       file: Option<string>, stranger: User)
    requires CourseEdit(courses, caller, id, body, file).Ok?
    requires stranger.userId != caller.userId
    ensures var updated := courses[id := CourseEdit(courses, caller, id, body, file).value];
            CourseEdit(updated, stranger, id, body, file) == Fail(403, MsgNotAuthorized)
            && CourseRemoval(updated, stranger, id) == Fail(403, MsgNotAuthorized)
  {
  }

  /** Sending the same update twice leaves the row as the first one left it. */
  lemma EditIsIdempotent(courses: map<nat, Course>, caller: User, id: nat, body: CourseBody,
                         file: Option<string>)
    requires CourseEdit(courses, caller, id, body, file).Ok?
    ensures var first := CourseEdit(courses, caller, id, body, file).value;
            CourseEdit(courses[id := first], caller, id, body, file) == Ok(200, first)
  {
  }

  /** `getCourses`: an instructor sees exactly the courses they own, any other
      caller every course. */
  function CoursesVisibleTo(courses: map<nat, Course>, caller: User): (v: map<nat, Course>)
    ensures forall id :: id in v ==> id in courses && v[id] == courses[id]
    ensures caller.role == Instructor
            ==> forall id :: id in courses ==> (id in v <==> courses[id].instructorId == caller.userId)
    ensures caller.role == Student ==> v == courses
  {
    if caller.role == Instructor then
      map id | id in courses && courses[id].instructorId == caller.userId :: courses[id]
    else courses
  }

  /** A course an instructor creates is among the courses listed to that
      instructor, and to every student. */
  lemma CreatedCourseIsListed(courses: map<nat, Course>, caller: User, body: CourseBody,
                              file: Option<string>, id: nat, viewer: User)
    requires NewCourse(caller, body, file, id).Ok?
    requires viewer == caller || viewer.role == Student
    ensures var c := NewCourse(caller, body, file, id).value;
            id in CoursesVisibleTo(courses[id := c], viewer)
  {
  }
}
