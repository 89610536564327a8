# Learning Management System — a Dafny model

This project models the core of a small learning-management system. The
backend is an Express/Sequelize server. It has:

- registration and login;
- a JWT request guard and an instructor guard;
- upload filters and stored file names for profile pictures and course
  thumbnails;
- controllers for courses, lessons and user profiles, with the routes that
  chain guards, uploads and controllers.

The React frontend parts modelled are:

- the session helpers over local storage;
- the registration form and its checks, including the email pattern;
- the courses page with its enrolment list, kept as JSON in local storage;
- the profile page, which splits the username into first and last name and
  joins it back on save.

Each controller decision is a pure function from the tables and the request
to a `Reply` (`Fail(status, message)` or `Ok(status, value)`). The error
answers are the ones the source sends, in the source's order.

- `Store.Database` is a class over maps, one per table. Its methods store
  what those functions decide and keep the table invariants: keys below the
  auto-increment counters, and unique emails and usernames.
- The middleware chain is a list of steps, run until one halts.
- The browser pages are classes whose methods replace their state as the
  React handlers do.

External effects become parameters:

- bcrypt's `hash` and `compare`;
- `jwt.sign`, and the signature and expiry check of `jwt.verify`;
- `jwtDecode` and `JSON.parse` (`None` when they throw);
- Sequelize's `isEmail`;
- `Date.now()`;
- the `window.confirm` answer and the server's `success` flag.

Three cross-module results stand out:

- **`Sessions.LoginTokenNeverAdmitted`.** The login token carries the user's key under `id`, but the guard looks the user up by `user_id`. So a token issued by login never passes the guard: the answer is 401 "User not found" when the token verifies, and 401 "Invalid or expired token" otherwise. This is the behaviour as written, and the model keeps it.
- **`ProfilePage.UntouchedSaveCutsThirdWord`.** Saving the profile form unchanged asks the server to rename a user whose username has three or more space-separated words, the first of them non-empty and not starting with white space. The edited row keeps only the first two words. The store then saves it, unless another row already has the shortened name, in which case it answers 500.
- **`EmailPattern.Matches`.** A one-pass scan is proved equal to the language of the regular expression `\S+@\S+\.\S+`, which is not anchored.

## Model

| member | source | states |
|---|---|---|
| Schema.ParseRole | backend/models/userModel.js:36-39 | a role string is accepted exactly when it is "student" or "instructor", and it names back to itself |
| Schema.InsertUserKeepsValid | backend/models/userModel.js:12-24 | inserting a row under the next key keeps the table valid (keys below the counter, unique emails and usernames) if and only if neither its email nor its username is taken |
| Schema.NewUserRow | backend/models/userModel.js:36-47 | a created row holds the given values and the column defaults: not verified, active, no profile picture |
| Schema.Sanitised | backend/controllers/authController.js:70-75 | the registration answer carries the row's key, username, email and role, and no password |
| Tokens.GuardSecret | backend/helpers/authGuard.js:4 | the guard's secret is `JWT_SECRET` when it is non-empty and "secret123" otherwise, never empty |
| Tokens.SessionClaims | backend/controllers/authController.js:120-128 | the login payload has exactly the keys id, role and email, holding the row's key, role and email |
| Tokens.SignedPayload | backend/controllers/authController.js:120-128 | a verified payload holds the signed claims plus iat and exp, and nothing else |
| Tokens.Verify | backend/helpers/authGuard.js:15 | an empty token never verifies; any other token verifies as the checker says |
| AuthController.RequestedRole | backend/controllers/authController.js:17 | the role asked for defaults to "student" when it is absent or empty |
| AuthController.Register | backend/controllers/authController.js:5-84 | the ordered checks: 400 for missing fields, a short password or a mismatch; 409 for a taken email and then a taken username; 500 when the table refuses the row. Success holds exactly when all pass, and gives 201 with the hashed password and the requested role |
| AuthController.ConflictNamesTheField | backend/controllers/authController.js:40-54 | a conflict is a 409 if and only if the email or the username is taken, and the message says which one, the email first |
| AuthController.UserIdByEmail | backend/controllers/authController.js:97 | the looked-up row has the given email |
| AuthController.SessionRequest | backend/controllers/authController.js:120-128 | login signs the session claims with a lifetime of 604800 seconds (7 days) |
| AuthController.Login | backend/controllers/authController.js:86-142 | 400 without both credentials; 404 exactly when no row has the email; 403 exactly when the row is deactivated; 401 exactly when the password does not match; success exactly when everything passes and a secret is set, with the token signed for that row; a failed sign answers 500 "Login failed" |
| AuthController.DeactivatedBeforePassword | backend/controllers/authController.js:105-118 | a deactivated account gets 403 whatever the password check would say |
| Guards.BearerToken | backend/helpers/authGuard.js:14 | the token is the run of non-space characters right after "Bearer ", ending at a space or at the end of the header |
| Guards.BearerTokenOf | backend/helpers/authGuard.js:14 | "Bearer " followed by a space-free token, with or without " more" after it, yields exactly that token |
| Guards.ClaimedUserId | backend/helpers/authGuard.js:17 | the key looked up is the non-negative number under `user_id`; a missing, string or negative claim names no key |
| Guards.AuthGuard | backend/helpers/authGuard.js:6-26 | 401 "Authorization token missing" exactly when there is no "Bearer " header; 401 "Invalid or expired token" exactly when the token does not verify; 401 "User not found" exactly when the verified `user_id` names no row; otherwise the request goes on, carrying that row; every halt is a 401 |
| Guards.BearerPrefixIsExact | backend/helpers/authGuard.js:10 | "bearer abc" and "Bearer" are refused as missing, and "Bearer " passes the prefix check but not verification |
| Guards.AdmittedUserIsARow | backend/helpers/authGuard.js:17-21 | an admitted request carries a row of the users table |
| Guards.IsInstructor | backend/helpers/isInstructor.js:1-12 | the request goes on unchanged exactly when it carries a user whose role is "instructor"; otherwise 403 "Access denied: Instructors only" |
| Uploads.ImageAllowed | backend/helpers/uploadProfile.js:18-23 | a name is accepted if and only if it ends with a dot and one of jpg, jpeg, png or webp, in any letter case |
| Uploads.FilterIsAnchoredAtTheEnd | backend/helpers/uploadProfile.js:19 | "a.png.exe" and "a.pngx" are refused; "Photo.JPeG" is accepted |
| Uploads.MatchIsUnique | backend/helpers/courseMulter.js:19 | the filter can match at one dot only |
| Uploads.ExtName | backend/helpers/uploadProfile.js:13 | `path.extname`'s result is empty or a suffix of the name; a non-empty result starts with its only '.', holds no '/', and its dot does not start the last path segment |
| Uploads.ExtNameOfImage | backend/helpers/uploadProfile.js:13 | for an accepted name, the extension is exactly the matched ".ext", in the client's letter case, unless the dot starts the file name |
| Uploads.StoredFileName | backend/helpers/uploadProfile.js:12-15 | the stored name is the prefix, then the decimal digits of the time (which read back as that time), then the original extension |
| Uploads.StoredNameIsImage | backend/helpers/courseMulter.js:12-15 | the stored name of an accepted image passes the filter again and ends in the client's extension |
| Uploads.Upload | backend/helpers/courseMulter.js:12-29 | no file passes through; a refused name is an error with the configured message exactly when the filter says no; an accepted file is stored under `StoredFileName`: the configured prefix, the time in decimal, then the original extension |
| Routes.HandleMulter | backend/routes/courseRoute.js:13-21 | a rejected upload halts with 400 and the filter's message; otherwise the request goes on, carrying `StoredFileName` of the upload when there was a file, and nothing else changed |
| Routes.RunStepsAppend | backend/routes/courseRoute.js:23 | running two chains of middleware one after the other is running their concatenation |
| Routes.LaterStepsKeepUser | backend/routes/courseRoute.js:23-29 | the steps after the guard do not change the authenticated user or the header |
| Routes.RunSteps | backend/routes/courseRoute.js:23-29 | the empty chain reaches the handler with the request unchanged, and every halt of a chain is the answer of one of its steps |
| Routes.RouteShapes | backend/routes/courseRoute.js:23-29 | every route starts with the guard; a listing route has the guard only; every other route then requires an instructor; only course create and update accept an upload |
| Routes.ReachedOnlyAuthenticated | backend/routes/lessonRoute.js:7-10 | a handler is reached only when the guard admits the request, with the guard's user; a writing handler is reached only by an instructor |
| Routes.ListingNeedsOnlyTheGuard | backend/routes/lessonRoute.js:8 | a listing route answers exactly as the guard does |
| Routes.NoHeaderNoHandler | backend/routes/courseRoute.js:23-29 | without a "Bearer " header, every route answers 401 "Authorization token missing" |
| Routes.StudentsStoppedBeforeUpload | backend/routes/courseRoute.js:23 | a student's writing request halts with 403 before any upload is looked at |
| Routes.RejectedUploadStopsTheChain | backend/routes/courseRoute.js:27 | an instructor's create or update with a non-image file halts with 400 "Only image files allowed" |
| Routes.DeleteIgnoresFiles | backend/routes/courseRoute.js:29 | whatever file the request carries, the course delete route halts with the same status and message, or lets through the same request with only that file differing |
| CourseController.ThumbnailPath | backend/controllers/courseController.js:15 | the thumbnail path is "/uploads/courses/" followed by the stored name |
| CourseController.NewCourse | backend/controllers/courseController.js:5-30 | 400 "All fields required" exactly when the title or the description is missing or empty; otherwise 201 with a course under the given key, owned by the caller, with the thumbnail only when a file was stored |
| CourseController.OwnerCheck | backend/controllers/courseController.js:47-53 | 404 exactly when the course is missing, 403 exactly when it belongs to someone else, and no objection exactly when the caller owns it |
| CourseController.CourseEdit | backend/controllers/courseController.js:44-73 | the same 404/403 gate; the owner's edit keeps the key and the owner, replaces title and description only when given, and changes the thumbnail only when a file was stored |
| CourseController.CourseRemoval | backend/controllers/courseController.js:75-96 | the same 404/403 gate; the owner's request answers 200 "Course deleted successfully" |
| CourseController.StrangersAreRefused | backend/controllers/courseController.js:51-53 | a caller who does not own the course gets 403 from both update and delete, whatever the body or file |
| CourseController.EditKeepsOwner | backend/controllers/courseController.js:67 | after an edit, any other user is still refused on that course |
| CourseController.EditIsIdempotent | backend/controllers/courseController.js:56-67 | sending the same edit twice leaves the course as the first one did |
| CourseController.CoursesVisibleTo | backend/controllers/courseController.js:32-42 | an instructor sees exactly their own courses; a student sees every course |
| CourseController.CreatedCourseIsListed | backend/controllers/courseController.js:18-34 | a created course is listed for its creator and for every student |
| LessonController.NewLesson | backend/controllers/lessonController.js:3-21 | 400 exactly when the title, the content or the course id is missing or falsy; otherwise 201 under the given key |
| LessonController.LessonsOfCourse | backend/controllers/lessonController.js:23-32 | the listing holds exactly the lessons of that course, unchanged |
| LessonController.LessonEdit | backend/controllers/lessonController.js:34-48 | 404 exactly when the lesson is missing; anyone's edit keeps the key and the course and replaces title and content only when given |
| LessonController.LessonRemoval | backend/controllers/lessonController.js:50-63 | 404 exactly when the lesson is missing; otherwise 200 "Lesson deleted successfully" |
| LessonController.EditKeepsCourseListing | backend/controllers/lessonController.js:42 | an edit does not move a lesson out of its course's listing or add one to another |
| LessonController.RemovalUnlistsOnlyThatLesson | backend/controllers/lessonController.js:57 | deleting a lesson removes it, and only it, from every course's listing |
| UserController.Profile | backend/controllers/userController.js:4-18 | the profile holds the row's username, email, phone number, address, role and picture, and never the password |
| UserController.PicturePath | backend/controllers/userController.js:29 | the picture path is "/uploads/profile/" followed by the stored name |
| UserController.ProfileEdit | backend/controllers/userController.js:20-31 | username, phone number and address change only to non-empty values; the picture changes only when a file was stored; key, email, password, role and flags never change |
| UserController.ProfileEditIsIdempotent | backend/controllers/userController.js:26-29 | sending the same update twice leaves the row as the first one did |
| UserController.EmptyFieldsChangeNothing | backend/controllers/userController.js:26-28 | a body of empty or absent fields without a file leaves the row unchanged |
| UserController.SaveConflicts | backend/controllers/userController.js:31 | on a table with unique usernames, the save is refused exactly when writing the edited row would break that uniqueness |
| UserController.ClashIsAnotherRow | backend/models/userModel.js:12-16 | writing a row under its key breaks unique usernames exactly when another row already holds its username |
| UserController.Students | backend/controllers/userController.js:50-62 | 403 "Access denied" exactly when the caller is not an instructor; otherwise exactly the student rows, whole |
| UserController.StudentsListingIsExact | backend/controllers/userController.js:56 | instructors never appear in the students listing, and every student does |
| Store.Database.constructor | backend/models/userModel.js:7-11 | the tables start empty and valid |
| Store.Database.RegisterUser | backend/controllers/authController.js:56-76 | on success, the row `User.create` makes (not verified, active, no picture) is stored under the next key, and the answer is its sanitised view; any failure leaves every table unchanged; the invariant is kept |
| Store.Database.CreateCourse | backend/controllers/courseController.js:18-25 | the answer is `NewCourse`'s; on success the course is stored under the next key; nothing else changes |
| Store.Database.UpdateCourse | backend/controllers/courseController.js:67-68 | the answer is `CourseEdit`'s; on success only that course's row is replaced, keeping its key |
| Store.Database.DeleteCourse | backend/controllers/courseController.js:90-91 | the answer is `CourseRemoval`'s; on success only that course is removed, and its lessons stay |
| Store.Database.CreateLesson | backend/controllers/lessonController.js:10-16 | the answer is `NewLesson`'s; on success the lesson is stored under the next key |
| Store.Database.UpdateLesson | backend/controllers/lessonController.js:42-43 | the answer is `LessonEdit`'s; on success only that lesson's row is replaced |
| Store.Database.DeleteLesson | backend/controllers/lessonController.js:57-58 | the answer is `LessonRemoval`'s; on success only that lesson is removed |
| Store.Database.UpdateUserProfile | backend/controllers/userController.js:20-48 | the edited row is saved and its profile returned, unless another row already has the new username: then 500 "Server error" with the table unchanged |
| Sessions.SessionPayloadNamesNoRow | backend/helpers/authGuard.js:17 | a verified login payload carries no `user_id`, so it names no row |
| Sessions.LoginTokenNeverAdmitted | backend/controllers/authController.js:120-128 | a token from a successful login is always refused by the guard: 401 "User not found" when it verifies as signed, and 401 "Invalid or expired token" otherwise |
| Sessions.RegisteredUserCanLogIn | backend/controllers/authController.js:97-128 | after a stored registration, logging in with the same email and password succeeds, given that the password check accepts what the hash made and a secret is set |
| Text.JsLength | backend/controllers/authController.js:26 | `.length` counts UTF-16 code units: between one and two per character, and exactly one each when every character is in the basic plane |
| Text.JsLengthOfChar | backend/controllers/authController.js:26 | one character counts two units when it lies outside the basic plane, and one otherwise |
| Text.JsLengthAppend | backend/controllers/authController.js:26 | the length of a concatenation is the sum of the lengths, so with `JsLengthOfChar` it fixes the exact count |
| Text.Split | backend/helpers/authGuard.js:14 | `split` gives one more piece than there are separators, no piece holds the separator, and joining the pieces gives the string back |
| Text.SplitJoin | frontend/src/pages/Profile.jsx:23-24 | splitting pieces joined by a separator that none of them holds gives the pieces back |
| Text.TrimKeepsTrimmed | frontend/src/pages/Profile.jsx:66 | a string with no white space at either end is its own trim |
| Text.TrimDropsTrailingSpace | frontend/src/pages/Profile.jsx:66 | a trimmed string followed by one white-space character trims back to itself |
| Text.DecimalRoundTrip | backend/helpers/uploadProfile.js:14 | the decimal digits written for a number read back as that number |
| EmailPattern.Matches | frontend/src/pages/Register.jsx:43 | the one-pass test holds if and only if somewhere in the string there is a non-space run, then "@", then a non-space run, then ".", then a non-space character |
| EmailPattern.ScanMeansMatch | frontend/src/pages/Register.jsx:43 | after every prefix, the scan's state says exactly how far the pattern has got, and the scan ends in `Matched` if and only if the pattern occurs |
| EmailPattern.PatternExamples | frontend/src/pages/Register.jsx:43 | "a@b.c", "see x@y.org now" and "a@b..c" pass; "a@b", "@b.c", "a@.c", "a @b.c" and "a@b. c" do not |
| RegisterPage.Validate | frontend/src/pages/Register.jsx:32-74 | each message is shown if and only if every earlier check passed and its own check fails; the form is accepted if and only if all eight checks pass |
| RegisterPage.AddressIsNeverChecked | frontend/src/pages/Register.jsx:32-74 | changing the address never changes the outcome of the checks |
| RegisterPage.Payload | frontend/src/pages/Register.jsx:83-90 | the body carries the six inputs as typed and no role |
| RegisterPage.AcceptedFormPassesServerChecks | frontend/src/pages/Register.jsx:83-90 | a form the page accepts passes the server's field, length and match checks, and registers a student |
| RegisterPage.RegisterForm.constructor | frontend/src/pages/Register.jsx:11-22 | the six inputs start empty and the box is unticked |
| RegisterPage.RegisterForm.HandleChange | frontend/src/pages/Register.jsx:25-30 | only the named input changes |
| RegisterPage.RegisterForm.SetAgree | frontend/src/pages/Register.jsx:202 | only the tick box changes |
| RegisterPage.RegisterForm.Submit | frontend/src/pages/Register.jsx:76-92 | a body is sent if and only if the checks pass, and then it passes the server's checks |
| ClientAuth.LocalStorage.GetItem | frontend/src/protected/Auth.jsx:3 | a key reads as absent exactly when it is not stored |
| ClientAuth.LocalStorage.SetItem | frontend/src/protected/Auth.jsx:69-72 | only that key changes, to the new value |
| ClientAuth.LocalStorage.RemoveItem | frontend/src/protected/Auth.jsx:9-13 | only that key goes |
| ClientAuth.IsTokenExpired | frontend/src/protected/Auth.jsx:14-23 | a token that does not decode, or has no (or a zero) `exp`, is expired; otherwise it is expired exactly when `exp` is less than the current time in seconds |
| ClientAuth.ExpiryIsFinal | frontend/src/protected/Auth.jsx:14-23 | a token that is expired now stays expired later |
| ClientAuth.UnexpiredTokenDecodes | frontend/src/protected/Auth.jsx:33-38 | a token that is not expired decodes, so the second decode never fails |
| ClientAuth.GetToken | frontend/src/protected/Auth.jsx:3 | null exactly when no token is stored, otherwise the stored token |
| ClientAuth.GetDecodedToken | frontend/src/protected/Auth.jsx:25-39 | a present, non-empty, unexpired token is decoded and the store is kept; otherwise the answer is null and only the token is removed |
| ClientAuth.GetUserRole | frontend/src/protected/Auth.jsx:41-54 | the same gate, answering the token's role |
| ClientAuth.GetUser | frontend/src/protected/Auth.jsx:56-66 | nothing stored gives null; a value that does not parse gives null and is removed; otherwise the parsed value |
| ClientAuth.Logout | frontend/src/protected/Auth.jsx:9-13 | token and user go, and the rest of the store stays |
| ClientAuth.UpdateToken | frontend/src/protected/Auth.jsx:69-72 | the token is replaced, and nothing else changes |
| ClientAuth.LoggedOutHasNoSession | frontend/src/protected/Auth.jsx:9-13 | after a logout, no helper finds a usable token |
| CoursesPage.Enroll | frontend/src/pages/Courses.jsx:50-57 | the id is enrolled afterwards; the set of ids gains exactly that id; an id already present changes nothing; a new id is appended at the end; no duplicates appear |
| CoursesPage.EnrollIsIdempotent | frontend/src/pages/Courses.jsx:51 | enrolling twice in a course is enrolling once |
| CoursesPage.EnrollCommutesAsASet | frontend/src/pages/Courses.jsx:50-57 | the order of two enrolments does not change which courses are enrolled |
| CoursesPage.Stringify | frontend/src/pages/Courses.jsx:54 | the written list is bracketed; `ParseStringify` reads it back |
| CoursesPage.ParseStringify | frontend/src/pages/Courses.jsx:12-15 | reading the stored list back gives exactly the list written at line 54 |
| CoursesPage.InitialEnrolled | frontend/src/pages/Courses.jsx:12-15 | nothing stored, or an empty string, starts an empty list; otherwise the stored value is parsed |
| CoursesPage.RemoveCourse | frontend/src/pages/Courses.jsx:41 | the course with that id is gone, and every other course stays |
| CoursesPage.RemoveCourseKeepsOrder | frontend/src/pages/Courses.jsx:41 | the filter keeps the order: filtering a list is filtering its two halves |
| CoursesPage.RemoveAbsentCourse | frontend/src/pages/Courses.jsx:41 | removing an id that no course has leaves the list as it was |
| CoursesPage.CoursesView.constructor | frontend/src/pages/Courses.jsx:11-15 | the page starts with no courses and with the stored enrolment list, and memory agrees with storage |
| CoursesPage.CoursesView.HandleEnroll | frontend/src/pages/Courses.jsx:50-57 | the list becomes `Enroll` of the old list; the store is written only for a new id; memory and storage still agree |
| CoursesPage.CoursesView.HandleDelete | frontend/src/pages/Courses.jsx:35-48 | the course leaves the list only when the user confirmed and the server reported success |
| ProfilePage.JoinName | frontend/src/pages/Profile.jsx:64-67 | the username sent has no white space at either end and is no longer than the two halves with a space |
| ProfilePage.SplitName | frontend/src/pages/Profile.jsx:22-24 | the two halves hold no space; a username without a space is all first name |
| ProfilePage.TwoWordsSplit | frontend/src/pages/Profile.jsx:23-24 | "a b" splits into first "a" and last "b" |
| ProfilePage.ThirdWordIsDropped | frontend/src/pages/Profile.jsx:23-24 | words after the second are dropped, and the joined name is shorter than the username |
| ProfilePage.SplitThenJoin | frontend/src/pages/Profile.jsx:23-24 | a username with at most one space and no white space at either end survives split-then-join exactly |
| ProfilePage.JoinThenSplit | frontend/src/pages/Profile.jsx:66 | a non-empty first name and a last name, both free of white space, survive join-then-split exactly |
| ProfilePage.FormOf | frontend/src/pages/Profile.jsx:22-28 | the form shows the split username and the profile's email, phone and address |
| ProfilePage.SetField | frontend/src/pages/Profile.jsx:58-60 | the named field takes the value, and every other field is kept |
| ProfilePage.SaveBody | frontend/src/pages/Profile.jsx:62-69 | the body carries the joined username, the phone number and the address |
| ProfilePage.ClearedNameKeepsUsername | frontend/src/pages/Profile.jsx:66 | clearing both name inputs sends an empty username, which the server ignores |
| ProfilePage.UntouchedSaveKeepsUsername | frontend/src/pages/Profile.jsx:62-69 | saving the form as loaded keeps a username of at most two words with no white space at either end |
| ProfilePage.UntouchedSaveCutsThirdWord | frontend/src/pages/Profile.jsx:62-69 | for a username of three or more words, the first non-empty and not starting with white space, the row the server's update builds from the form as loaded has a different username; the save itself can still fail on a username clash |
| ProfilePage.ProfileScreen.constructor | frontend/src/pages/Profile.jsx:18-29 | the loaded profile is shown, the form is filled from it, and the profile is copied to storage under "user" |
| ProfilePage.ProfileScreen.Load | frontend/src/pages/Profile.jsx:18-29 | the same, on a reload, and the editing flag is kept |
| ProfilePage.ProfileScreen.Edit | frontend/src/pages/Profile.jsx:199-200 | editing starts, and nothing else changes |
| ProfilePage.ProfileScreen.HandleInputChange | frontend/src/pages/Profile.jsx:58-60 | the form becomes `SetField` of the old form |
| ProfilePage.ProfileScreen.Cancel | frontend/src/pages/Profile.jsx:177-185 | editing stops, and the form is refilled from the loaded profile, dropping every edit |
| ProfilePage.ProfileScreen.Save | frontend/src/pages/Profile.jsx:62-77 | the body sent is `SaveBody` of the form; editing stops only on success |

## Left out

- bcrypt, `jwt.sign`, the signature and expiry check of `jwt.verify`, `jwtDecode`, `JSON.parse` and the `isEmail` validator are parameters. Their algorithms are not modelled.
- Sequelize is modelled as one map per table. SQL, connections, timestamps and case-insensitive collation (which would make emails or usernames that differ in case collide) are not modelled.
- Files on disk are not modelled. This covers multer's disk writes, the upload-directory creation at module load, and the removal of old thumbnails in `updateCourse` and `deleteCourse`.
- Multer is modelled only through its filter and stored name. Its 5 MiB size limit and single-field rule are kept as constants in `Uploads.UploadConfig` but not enforced.
- `Date.now()` and the token clock are parameters.
- HTTP plumbing is not modelled. That covers response `success` fields, status-less JSON, `res.json` shapes beyond status and message, `backend/index.js`, `backend/routes/userRoute.js` and `frontend/src/services/api.js`.
- The profile and students endpoints are modelled as controllers, but no shown route mounts them.
- Route path parameters are numbers in the model. A non-numeric `:id` string, which `findByPk` would not find, is not modelled.
- The guard accepts only a numeric `user_id` claim. A string `user_id` is treated as naming no row.
- Request-body fields are modelled with one JSON type each. `courseId` in the lesson body is a number or absent; every other field is a string or absent. A JSON `null` and a missing field are both absent. Values of another JSON type are not modelled. So a numeric `password`, which skips the length check at backend/controllers/authController.js:26, cannot be expressed. Neither can a string `courseId` such as "0", which passes `!courseId`.
- CourseController.CourseEdit: treats a `null` title or description as absent and keeps the old value, answering 200. Sequelize's `update` skips only `undefined`, so the source writes null into a `NOT NULL` column and answers 500 "Course update failed".
- LessonController.LessonEdit: treats a `null` title or content as absent and keeps the old value, answering 200. The source writes null into a `NOT NULL` column and answers 500 "Lesson update failed".
- Catch-all 500 answers for database failures other than the ones named (a refused row on register, a username clash on profile save) are not modelled.
- Concurrency between requests is not modelled; each handler runs on its own.
- React rendering, toasts, navigation, loading flags and the photo-only upload in `handlePhotoChange` are not modelled. `window.confirm` and the server's `success` answer are parameters.
- CoursesPage.ParseIds: reads only lists of non-negative integers in the form `JSON.stringify` writes them. Other JSON is treated as a parse error.
- CoursesPage.CoursesView.constructor: requires the stored list to parse. When it does not, the page throws during setup, which is not modelled.
- ProfilePage.SaveBody: an absent address is sent as absent. How the multipart encoding turns a `null` address into a string is not modelled.
- ProfilePage.ProfileScreen.constructor: models only a successful first load. A failed profile fetch is not modelled.
- ClientAuth.GetUser: is generic in the parsed value. The shape of the stored user object is not modelled.
- Text.JsLength: counts a character outside the basic plane as two UTF-16 code units. Lone surrogates are not modelled.
