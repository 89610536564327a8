/** The decisions of the lesson controller over the lessons table. Unlike the
    course controller, nothing here looks at the caller: any instructor may
    change or remove any lesson. Applying them to the table is `Store.Database`. */
module LessonController {
  import opened Wrappers
  import opened Text
  import opened Schema

  /** The JSON body of lesson create and update; `courseId` is a number. */
  datatype LessonBody = LessonBody(title: Option<string>, content: Option<string>, courseId: Option<int>)

  const MsgFieldsRequired := "All fields required"
  const MsgLessonNotFound := "Lesson not found"
  const MsgLessonDeleted := "Lesson deleted successfully"

  /** `if (courseId)` on a number: absent and 0 are both falsy. */
  predicate CourseIdGiven(c: Option<int>) {
    c.Some? && c.value != 0
  }

  /** `createLesson`, with `id` the key the table hands out next. The course id
      is stored as sent: nothing checks that such a course exists. */
  function NewLesson(body: LessonBody, id: nat): (r: Reply<Lesson>)
    ensures r.Fail? <==> !Truthy(body.title) || !Truthy(body.content) || !CourseIdGiven(body.courseId)
    ensures r.Fail? ==> r == Fail(400, MsgFieldsRequired)
    ensures r.Ok? ==> r.status == 201 && r.value.lessonId == id
                      && r.value.title == body.title.value && r.value.content == body.content.value
                      && r.value.courseId == body.courseId.value && r.value.courseId != 0
  {
    if !Truthy(body.title) || !Truthy(body.content) || !CourseIdGiven(body.courseId) then
      Fail(400, MsgFieldsRequired)
    else Ok(201, Lesson(id, body.title.value, body.content.value, body.courseId.value))
  }

  /** `getLessonsByCourse`: exactly the lessons filed under the course id. */
  function LessonsOfCourse(lessons: map<nat, Lesson>, courseId: int): (v: map<nat, Lesson>)
    ensures forall id :: id in v <==> id in lessons && lessons[id].courseId == courseId
    ensures forall id :: id in v ==> v[id] == lessons[id]
  {
    map id | id in lessons && lessons[id].courseId == courseId :: lessons[id]
  }

  /** `updateLesson`: unknown id is 404; otherwise the title and the content the
      body carries replace the stored ones (one left out keeps its value) and the
      course id never changes. The caller is not consulted. */
  function LessonEdit(lessons: map<nat, Lesson>, id: nat, body: LessonBody): (r: Reply<Lesson>)
    ensures r.Fail? <==> id !in lessons
    ensures r.Fail? ==> r == Fail(404, MsgLessonNotFound)
    ensures r.Ok? ==> r.status == 200
                      && r.value.lessonId == lessons[id].lessonId
                      && r.value.courseId == lessons[id].courseId
                      && r.value.title == body.title.GetOr(lessons[id].title)
                      && r.value.content == body.content.GetOr(lessons[id].content)
  {
    if id !in lessons then Fail(404, MsgLessonNotFound)
    else
      var l := lessons[id];
      Ok(200, l.(title := body.title.GetOr(l.title), content := body.content.GetOr(l.content)))
  }

  /** `deleteLesson`: unknown id is 404; the caller is not consulted. */
  function LessonRemoval(lessons: map<nat, Lesson>, id: nat): (r: Reply<string>)
    ensures r.Fail? <==> id !in lessons
    ensures r.Fail? ==> r == Fail(404, MsgLessonNotFound)
    ensures r.Ok? ==> r == Ok(200, MsgLessonDeleted)
  {
    if id !in lessons then Fail(404, MsgLessonNotFound) else Ok(200, MsgLessonDeleted)
  }

  /** An update moves no lesson between courses: every course lists the same
      lessons afterwards, the edited one with its new text. */
  lemma EditKeepsCourseListing(lessons: map<nat, Lesson>, id: nat, body: LessonBody, courseId: int)
    requires LessonEdit(lessons, id, body).Ok?
    ensures var updated := lessons[id := LessonEdit(lessons, id, body).value];
            LessonsOfCourse(updated, courseId).Keys == LessonsOfCourse(lessons, courseId).Keys
  {
    var updated := lessons[id := LessonEdit(lessons, id, body).value];
    assert forall k :: k in updated ==> updated[k].courseId == lessons[k].courseId;
  }

  /** Removing a lesson removes it from its course's listing and from no other. */
  lemma RemovalUnlistsOnlyThatLesson(lessons: map<nat, Lesson>, id: nat, courseId: int)
    requires LessonRemoval(lessons, id).Ok?
    ensures LessonsOfCourse(lessons - {id}, courseId) == LessonsOfCourse(lessons, courseId) - {id}
  {
  }
}
