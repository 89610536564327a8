/** The middleware chains of the course and lesson routers: which guards and
    which upload step stand in front of each handler, run in order, the first
    one that answers ending the chain. */
module Routes {
  import opened Wrappers
  import opened Text
  import opened Schema
  import opened Tokens
  import opened Uploads
  import opened Guards

  datatype Verb = Get | Post | Put | Delete

  /** A middleware that can stand in front of a handler. */
  datatype Step = Authenticate | RequireInstructor | AcceptUpload(cfg: UploadConfig)

  /** The controller function a route ends in. */
  datatype Handler =
    | CreateCourse | GetCourses | UpdateCourse | DeleteCourse
    | CreateLesson | GetLessonsByCourse | UpdateLesson | DeleteLesson

  datatype Route = Route(verb: Verb, path: string, steps: seq<Step>, handler: Handler)

  /** What the middlewares read besides the request: the users table, the
      `JWT_SECRET` setting, token verification and the clock for stored names. */
  datatype Context = Context(
    users: map<nat, User>,
    jwtSecretEnv: Option<string>,
    verify: (string, string) -> Option<Claims>,
    nowMs: nat)

  /** `handleMulter`: an upload error answers 400 with the error's message; a
      request without a file, or whose file was stored, goes on, carrying the
      stored name in `req.file`. */
  function HandleMulter(cfg: UploadConfig, req: Request, nowMs: nat): (o: Outcome)
    ensures o.Halt? <==> req.upload.Some? && !ImageAllowed(req.upload.value.originalName)
    ensures o.Halt? ==> o == Halt(400, cfg.rejectMessage)
    ensures req.upload.None? ==> o == Next(req)
    ensures o.Next? && req.upload.Some? ==> o.req.file.Some? && StartsWith(o.req.file.value, cfg.namePrefix)
    ensures o.Next? && req.upload.Some?
            ==> ImageAllowed(req.upload.value.originalName)
                && o.req.file == Some(StoredFileName(cfg, nowMs, req.upload.value.originalName))
    ensures o.Next? ==> o.req.(file := req.file) == req
  {
    match Upload(cfg, req.upload, nowMs)
    case NoFile => Next(req)
    case Rejected(message) => Halt(400, message)
    case Stored(filename) => Next(req.(file := Some(filename)))
  }

  function RunStep(s: Step, req: Request, ctx: Context): Outcome {
    match s
    case Authenticate => AuthGuard(req, ctx.users, ctx.jwtSecretEnv, ctx.verify)
    case RequireInstructor => IsInstructor(req)
    case AcceptUpload(cfg) => HandleMulter(cfg, req, ctx.nowMs)
  }

  /** Express running a chain: each middleware either calls `next` with the
      request or answers, and an answer ends the chain. `Next` at the end means
      the handler is reached with that request. */
  function RunSteps(steps: seq<Step>, req: Request, ctx: Context): (o: Outcome)
    ensures steps == [] ==> o == Next(req)
    ensures o.Halt? ==> exists i, q :: 0 <= i < |steps| && RunStep(steps[i], q, ctx) == o
    decreases |steps|
  {
    if steps == [] then Next(req)
    else
      match RunStep(steps[0], req, ctx)
      case Halt(status, message) => Halt(status, message)
      case Next(r) => RunSteps(steps[1..], r, ctx)
  }

  /** A chain split in two runs the first part and, only if it lets the request
      through, the second on what the first produced. */
  lemma {:induction false} RunStepsAppend(s1: seq<Step>, s2: seq<Step>, req: Request, ctx: Context)
    ensures RunSteps(s1 + s2, req, ctx)
            == (match RunSteps(s1, req, ctx)
                case Halt(status, message) => Halt(status, message)
                case Next(r) => RunSteps(s2, r, ctx))
  {
    if s1 == [] {
      assert s1 + s2 == s2;
    } else {
      assert (s1 + s2)[0] == s1[0];
      assert (s1 + s2)[1..] == s1[1..] + s2;
      match RunStep(s1[0], req, ctx)
      case Halt(_, _) =>
      case Next(r) => RunStepsAppend(s1[1..], s2, r, ctx);
    }
  }

  /** Steps after the guard never replace `req.user` nor the header. */
  lemma {:induction false} LaterStepsKeepUser(steps: seq<Step>, req: Request, ctx: Context)
    requires Authenticate !in steps
    requires RunSteps(steps, req, ctx).Next?
    ensures RunSteps(steps, req, ctx).req.user == req.user
    ensures RunSteps(steps, req, ctx).req.authorization == req.authorization
  {
    if steps != [] {
      assert steps[0] in steps;
      assert forall s :: s in steps[1..] ==> s in steps;
      LaterStepsKeepUser(steps[1..], RunStep(steps[0], req, ctx).req, ctx);
    }
  }

  /** `courseRoute.js`: create and update go through the guard, the instructor
      check and the thumbnail upload; listing needs only the guard; delete has no
      upload step. */
  const CourseRoutes: seq<Route> := [
    Route(Post, "/", [Authenticate, RequireInstructor, AcceptUpload(CourseUpload)], CreateCourse),
    Route(Get, "/", [Authenticate], GetCourses),
    Route(Put, "/:id", [Authenticate, RequireInstructor, AcceptUpload(CourseUpload)], UpdateCourse),
    Route(Delete, "/:id", [Authenticate, RequireInstructor], DeleteCourse)
  ]

  /** `lessonRoute.js`: every route is guarded, and every route but the listing
      also requires an instructor. */
  const LessonRoutes: seq<Route> := [
    Route(Post, "/", [Authenticate, RequireInstructor], CreateLesson),
    Route(Get, "/:courseId", [Authenticate], GetLessonsByCourse),
    Route(Put, "/:id", [Authenticate, RequireInstructor], UpdateLesson),
    Route(Delete, "/:id", [Authenticate, RequireInstructor], DeleteLesson)
  ]

  /** Whether the request reaches the route's handler, and with what. */
  function Dispatch(r: Route, req: Request, ctx: Context): Outcome {
    RunSteps(r.steps, req, ctx)
  }

  predicate IsRoute(r: Route) {
    r in CourseRoutes || r in LessonRoutes
  }

  /** Every route starts with the guard; a writing route then requires an
      instructor, and only the course create and update routes upload. */
  lemma RouteShapes(r: Route)
    requires IsRoute(r)
    ensures |r.steps| >= 1 && r.steps[0] == Authenticate && Authenticate !in r.steps[1..]
    ensures r.verb == Get <==> r.steps == [Authenticate]
    ensures r.verb != Get ==> |r.steps| >= 2 && r.steps[1] == RequireInstructor
    ensures (exists s :: s in r.steps && s.AcceptUpload?)
            <==> r.handler == CreateCourse || r.handler == UpdateCourse
  {
    if r.handler == CreateCourse || r.handler == UpdateCourse {
      assert r.steps[2] in r.steps;
    }
  }

  /** A handler is reached only by an authenticated request: the guard let it
      through and the request carries the user the guard found. A handler behind
      a writing route is reached only by an instructor. */
  lemma ReachedOnlyAuthenticated(r: Route, req: Request, ctx: Context)
    requires IsRoute(r)
    requires Dispatch(r, req, ctx).Next?
    ensures AuthGuard(req, ctx.users, ctx.jwtSecretEnv, ctx.verify).Next?
    ensures Dispatch(r, req, ctx).req.user == AuthGuard(req, ctx.users, ctx.jwtSecretEnv, ctx.verify).req.user
    ensures Dispatch(r, req, ctx).req.user.Some?
    ensures r.verb != Get ==> Dispatch(r, req, ctx).req.user.value.role == Instructor
  {
    RouteShapes(r);
    var g := AuthGuard(req, ctx.users, ctx.jwtSecretEnv, ctx.verify);
    RunStepsAppend([Authenticate], r.steps[1..], req, ctx);
    assert [Authenticate] + r.steps[1..] == r.steps;
    LaterStepsKeepUser(r.steps[1..], g.req, ctx);
    if r.verb != Get {
      var tail := r.steps[2..];
      assert r.steps[1..] == [RequireInstructor] + tail;
      RunStepsAppend([RequireInstructor], tail, g.req, ctx);
      assert forall s :: s in tail ==> s in r.steps[1..];
    }
  }

  /** The listing routes are guarded and nothing else: the handler is reached
      exactly when the guard passes, with the request the guard produced. */
  lemma ListingNeedsOnlyTheGuard(r: Route, req: Request, ctx: Context)
    requires IsRoute(r) && r.verb == Get
    ensures Dispatch(r, req, ctx) == AuthGuard(req, ctx.users, ctx.jwtSecretEnv, ctx.verify)
  {
    RouteShapes(r);
  }

  /** Without a usable Bearer header every route answers 401 "Authorization
      token missing", whatever else the request holds. */
  lemma NoHeaderNoHandler(r: Route, req: Request, ctx: Context)
    requires IsRoute(r) && !HasBearer(req.authorization)
    ensures Dispatch(r, req, ctx) == Halt(401, MsgTokenMissing)
  {
    RouteShapes(r);
  }

  /** An authenticated student is stopped with 403 at every writing route, before
      any file is looked at. */
  lemma StudentsStoppedBeforeUpload(r: Route, req: Request, ctx: Context)
    requires IsRoute(r) && r.verb != Get
    requires AuthGuard(req, ctx.users, ctx.jwtSecretEnv, ctx.verify).Next?
    requires AuthGuard(req, ctx.users, ctx.jwtSecretEnv, ctx.verify).req.user.value.role == Student
    ensures Dispatch(r, req, ctx) == Halt(403, MsgInstructorsOnly)
  {
    RouteShapes(r);
    var g := AuthGuard(req, ctx.users, ctx.jwtSecretEnv, ctx.verify);
    var tail := r.steps[2..];
    assert r.steps == [Authenticate] + ([RequireInstructor] + tail);
    RunStepsAppend([Authenticate], [RequireInstructor] + tail, req, ctx);
    RunStepsAppend([RequireInstructor], tail, g.req, ctx);
    assert IsInstructor(g.req).Halt?;
  }

  /** On the course create and update routes, an instructor's file that the
      filter refuses answers 400 "Only image files allowed"; the handler is not
      reached. */
  lemma RejectedUploadStopsTheChain(r: Route, req: Request, ctx: Context)
    requires r == CourseRoutes[0] || r == CourseRoutes[2]
    requires AuthGuard(req, ctx.users, ctx.jwtSecretEnv, ctx.verify).Next?
    requires AuthGuard(req, ctx.users, ctx.jwtSecretEnv, ctx.verify).req.user.value.role == Instructor
    requires req.upload.Some? && !ImageAllowed(req.upload.value.originalName)
    ensures Dispatch(r, req, ctx) == Halt(400, "Only image files allowed")
  {
    var g := AuthGuard(req, ctx.users, ctx.jwtSecretEnv, ctx.verify);
    assert IsInstructor(g.req) == Next(g.req);
    assert r.steps == [Authenticate] + ([RequireInstructor] + [AcceptUpload(CourseUpload)]);
    RunStepsAppend([Authenticate], [RequireInstructor] + [AcceptUpload(CourseUpload)], req, ctx);
    RunStepsAppend([RequireInstructor], [AcceptUpload(CourseUpload)], g.req, ctx);
    assert HandleMulter(CourseUpload, g.req, ctx.nowMs) == Halt(400, "Only image files allowed");
  }

  /** The course delete route has no upload step: a file in the request, accepted
      or not, changes neither the answer nor the request the handler receives,
      apart from the file itself riding along. */
  lemma DeleteIgnoresFiles(req: Request, ctx: Context, u: Option<IncomingFile>)
    ensures var a := Dispatch(CourseRoutes[3], req, ctx);
            var b := Dispatch(CourseRoutes[3], req.(upload := u), ctx);
            (a.Halt? ==> b == a)
            && (a.Next? ==> b.Next? && b.req == a.req.(upload := u))
  {
  }
}
