# CoDev ERP — a Dafny model of its server handlers and client pages

CoDev ERP is a school-management system. It has two parts:

- a Go server built on gin and GORM. It stores users, courses, enrolments, lessons, lesson tasks, homework submissions, leads and sales rows, behind a cookie session;
- a React client. It offers a dashboard per role (admin, teacher, student, lead, sales), a course page with a lesson modal, a profile page, a lead page and a sales page.

This project models both parts:

- **Store** (`models.dfy`). The database is the value `Db`, one sequence of rows per table, held by the class `Store`. The value is replaced on every write. Row creation and deletion are functions on `Db`:
  - a fresh id is `NextId`;
  - deletes are modelled twice: `DeleteUserAsWritten`, `DeleteLessonAsWritten` and `DeleteCourseAsWritten` follow the constraints GORM creates, where the has-many keys have no action and refuse the delete; `DeleteUser`, `DeleteLesson` and `DeleteCourse` carry out the `ON DELETE CASCADE` and `ON DELETE SET NULL` the tags declare. The handlers use the first (see "## Findings");
  - `DbValid` is the invariant: ids unique and ascending, foreign keys resolved (a sales row's lead included), emails unique, roles storable, passwords hashed;
  - `LeadsChecked` is the lead check the schema intends but, as written, does not declare. Only the intended insert keeps it.
- **Framework** (`http.dfy`). The request context is a class with a `status` field. Only the first write sets the status, as gin does (`Written`). The session is a class whose value is `NoUser`, a value of another type, or a `UserSession`.
- **Handlers** (`*_handlers.dfy`, `middleware.dfy`, `endpoints.dfy`). Each handler is a method on the store, the context and the session:
  - its `ensures` ties the status written and the new store to a specification function;
  - lemmas state what the handler promises about that function.
- **Client pages** (`client_*.dfy`). Each React component with state is a class whose fields are its `useState` variables. Each handler or effect is a method:
  - where the page talks to the server, a method creates a `Context` and calls the server handler's method;
  - lemmas across the two layers state what the user sees.

## Model

| member | source | states |
|---|---|---|
| Common.NatToString | server/endpoints/lesson_handlers/handlers.go:425-431 | the decimal rendering of an id is a non-empty digit string without a leading zero whose value is the id |
| Common.ParseUint | server/endpoints/auth_handlers/handlers.go:200 | strconv.ParseUint(s, 10, 64) succeeds exactly on non-empty digit strings below 2^64, with their decimal value |
| Common.Atoi | server/endpoints/lesson_handlers/handlers.go:71 | strconv.Atoi yields only values in the signed 64-bit range and fails on the empty string |
| Common.AtoiReadsRenderedId | server/endpoints/course_handlers/handlers.go:27 | an id below 2^63, rendered in decimal, is read back unchanged by Atoi and by ParseUint |
| Common.ToUint64 | server/endpoints/course_handlers/handlers.go:105 | Go's `uint(x)` conversion stays below 2^64 and is the identity on values already in range |
| Common.ToInt64 | server/endpoints/lesson_handlers/handlers.go:77 | the conversion back to `int` stays in the signed range and is the identity below 2^63 |
| Models.HashInjective | server/db/models/models.go:106-117 | two passwords share the digest the BeforeCreate hook stores iff they are equal, and a digest is never a plain password |
| Models.ProjectionOmitsPassword | server/db/models/models.go:17 | the user projection sent to clients never depends on the password, and it keeps id, role and email |
| Models.EmptyDbValid | server/db/db.go:28-39 | freshly migrated tables satisfy every store invariant |
| Models.Store.constructor | server/db/db.go:28-39 | the store starts with empty tables |
| Models.CreateUser | server/db/models/models.go:12-26 | an insert succeeds iff hashing succeeds, the email is unused and the role passes the check constraint; the row gets the next id and the hashed password, and the store stays valid |
| Models.InsertUserValid | server/db/models/models.go:14-18 | a user with a fresh id, an unused email, a storable role and a hashed password keeps the store valid |
| Models.CreateCourse | server/db/models/models.go:28-40 | an insert succeeds iff the teacher, when given, is a stored user; the row gets the next id and the store stays valid |
| Models.CreateEnrollment | server/db/models/models.go:42-54 | an insert succeeds iff the user and the course exist; the store stays valid when the pair is not yet enrolled |
| Models.CreateLesson | server/db/models/models.go:56-65 | an insert succeeds iff the course exists; the row gets the next id and the store stays valid |
| Models.CreateTasks | server/db/models/models.go:67-74 | an insert succeeds iff the lesson exists; the row gets the next id and the store stays valid |
| Models.CreateHomework | server/db/models/models.go:76-89 | an insert succeeds iff the user and the lesson exist; the store stays valid when the user has no submission for the lesson yet |
| Models.CreateLeadAsWritten | server/db/models/models.go:98-99 | as the tags are written, a lead insert checks neither source nor status: only the id range refuses a row, and a lead with an unused phone keeps the store valid |
| Models.LeadChecksMissing | server/db/models/models.go:98-99 | a lead with source "tiktok" and status "lost" is stored as written, leaving a lead that is not checked, and is refused by the intended checks |
| Models.CreateLead | server/db/models/models.go:91-102 | with the intended checks, an insert succeeds iff source and status are among the allowed values; the row gets the next id and every stored lead stays checked |
| Models.CreateSales | server/endpoints/lead_handlers/handlers.go:86-93 | a sales insert succeeds iff ids remain and the lead it names is stored (the foreign key of its Lead association); the row gets the next id and the store stays valid |
| Models.DeleteUser | server/db/models/models.go:37 | the intended delete: it removes exactly that user, clears them as teacher of their courses (SET NULL) and removes their enrolments and submissions (CASCADE) |
| Models.DeleteUserValid | server/db/models/models.go:52-53 | deleting a user keeps every store invariant |
| Models.LessonsOf | server/db/models/models.go:63 | the lessons of a course are exactly the stored lessons naming it |
| Models.DeleteLesson | server/db/models/models.go:73 | the intended delete: it removes the lesson, its task rows and its submissions, and nothing else |
| Models.DeleteLessonValid | server/db/models/models.go:87-88 | deleting a lesson keeps every store invariant |
| Models.DeleteCourse | server/db/models/models.go:53 | the intended delete: it removes the course, its enrolments, its lessons, and their tasks and submissions, and nothing else |
| Models.DeleteCourseForeignKeys | server/db/models/models.go:63 | after a course deletion every remaining row still refers to stored rows |
| Models.DeleteCourseValid | server/db/models/models.go:53-73 | deleting a course keeps every store invariant |
| Models.DeleteUserAsWritten | server/db/models/models.go:24-25 | a user delete is refused exactly when the user exists and a course or an enrolment names them; otherwise the user goes with their submissions (CASCADE, models.go:87) and nothing else changes |
| Models.DeleteUserAsWrittenAgrees | server/db/models/models.go:24-25 | with valid keys, the refusal happens iff a course or enrolment names the user, and an accepted delete is the intended DeleteUser |
| Models.DeleteUserAsWrittenValid | server/db/models/models.go:24-25 | a user delete the schema accepts keeps every store invariant |
| Models.TeacherDeleteRefused | server/db/models/models.go:37 | a course's teacher cannot be deleted, though the SET NULL tag intends the course to stay without a teacher |
| Models.DeleteLessonAsWritten | server/db/models/models.go:64 | a lesson delete is refused exactly when the lesson exists and a task row names it; otherwise the lesson goes with its submissions (CASCADE, models.go:88) and nothing else changes |
| Models.DeleteLessonAsWrittenAgrees | server/db/models/models.go:64 | with valid keys, the refusal happens iff a task row names the lesson, and an accepted delete is the intended DeleteLesson |
| Models.DeleteLessonAsWrittenValid | server/db/models/models.go:64 | a lesson delete the schema accepts keeps every store invariant |
| Models.DeleteCourseAsWritten | server/db/models/models.go:39 | a course delete is refused exactly when the course exists and an enrolment names it or a task row names one of its lessons; otherwise the course, its lessons (CASCADE, models.go:63) and their submissions go and nothing else changes |
| Models.DeleteCourseAsWrittenAgrees | server/db/models/models.go:39 | with valid keys, the refusal happens iff an enrolment or a task row stands in the way, and an accepted delete is the intended DeleteCourse |
| Models.DeleteCourseAsWrittenValid | server/db/models/models.go:39 | a course delete the schema accepts keeps every store invariant |
| Models.EnrolledCourseDeleteRefused | server/db/models/models.go:53 | a course with an enrolment cannot be deleted, though the CASCADE tag intends it to go with its enrolments |
| Models.UpdateUsersValid | server/db/models/models.go:12-26 | an update that keeps ids, emails, roles and hashed passwords keeps the store valid |
| Models.UpdateEnrollmentsValid | server/db/models/models.go:42-54 | an update that keeps ids and both references keeps the store valid |
| Models.UpdateTasksValid | server/db/models/models.go:67-74 | an update that keeps ids and the lesson reference keeps the store valid |
| Models.UpdateHomeworksValid | server/db/models/models.go:76-89 | an update that keeps ids and both references keeps the store valid |
| Models.UpdateSalesValid | server/endpoints/sales_handlers/handlers.go:40-59 | an update that keeps ids and the lead each row names keeps the store valid |
| Http.Context.JSON | server/endpoints/endpoint_utils.go:33 | a JSON reply sets the status only if none was written before |
| Http.Context.Status | server/endpoints/sales_handlers/handlers.go:62 | a bare status sets the status only if none was written before |
| Http.Context.AbortWithStatusJSON | server/endpoints/middleware/middleware.go:20 | aborting writes the status if none was written before and stops the chain |
| Http.Context.Recover | server/main.go:35 | a panicking handler is answered 500 unless a status was already written |
| Http.Session.constructor | server/main.go:57 | the cookie session holds the value it was created with |
| Endpoints.CheckPasswordHashExact | server/endpoints/endpoint_utils.go:14-17 | a password matches a stored digest iff it is the password digested, and never matches the zero user's empty password |
| Endpoints.FileExtSpec | server/endpoints/endpoint_utils.go:21 | filepath.Ext is empty or a dot-led suffix of the path with no further dot or slash |
| Endpoints.FileExtOfDotted | server/endpoints/endpoint_utils.go:21 | the extension of `p.e` is `.e` when e has no dot or slash |
| Endpoints.FileExtNoDot | server/endpoints/endpoint_utils.go:21 | a name without a dot has no extension |
| Endpoints.TrimPrefix | server/endpoints/endpoint_utils.go:21 | strings.TrimPrefix removes the prefix exactly when it is present |
| Endpoints.ToLowerSpec | server/endpoints/endpoint_utils.go:21 | lower-casing keeps the length and maps every character on its own |
| Endpoints.ExtensionOfDotted | server/endpoints/endpoint_utils.go:21 | the extension checked is the lower-cased text after the last dot |
| Endpoints.ExtensionNoDot | server/endpoints/endpoint_utils.go:21 | a name without a dot is checked with the empty extension |
| Endpoints.IsAllowedExtension | server/endpoints/endpoint_utils.go:22-31 | the allow-list loop accepts an extension iff it is jpg, jpeg, png or webp |
| Endpoints.ReplaceSpaces | server/endpoints/endpoint_utils.go:44 | every space becomes an underscore and every other character is kept |
| Endpoints.TrimSpaces | server/endpoints/endpoint_utils.go:44 | trimming never lengthens a name and leaves a name without spaces as it is |
| Endpoints.SanitizeSpec | server/endpoints/endpoint_utils.go:44 | a kept file name is the upload's name with every space replaced by an underscore; it has no spaces, and sanitizing again changes nothing |
| Endpoints.Outcome | server/endpoints/endpoint_utils.go:19-56 | an upload fails only with 400 or 500, and a failed upload has the empty name |
| Endpoints.OutcomeSpec | server/endpoints/endpoint_utils.go:24-53 | 400 iff the extension is checked and not allowed; 500 iff the save fails after the check |
| Endpoints.OutcomeName | server/endpoints/endpoint_utils.go:40-46 | a random name ends in `.` plus the allowed extension; a kept name is the sanitized upload name |
| Endpoints.AfterUpload | server/endpoints/endpoint_utils.go:33-52 | a failing upload writes its error status only when no status was written yet |
| Endpoints.ProcessImageFile | server/endpoints/endpoint_utils.go:19-56 | returns the outcome's name and leaves the outcome's status on the context |
| Endpoints.UploadNamesSpec | server/endpoints/lesson_handlers/handlers.go:143-153 | the names collected for a list of uploads are, one for one, the names their outcomes give |
| Endpoints.StatusAfterSpec | server/endpoints/lesson_handlers/handlers.go:143-153 | processing files never changes a status already written, and leaves it unset while every upload succeeds |
| Endpoints.UploadsStatusSpec | server/endpoints/lesson_handlers/handlers.go:143-153 | the same, for the whole list |
| Endpoints.ProcessUploads | server/endpoints/lesson_handlers/handlers.go:143-153 | the upload loop returns the names of all files and the status their outcomes leave |
| Middleware.RateLimiter | server/endpoints/middleware/middleware.go:11-27 | a request continues iff the limiter allows it; otherwise it is aborted with 429 |
| Middleware.RoleGate | server/endpoints/middleware/middleware.go:29-52 | a request continues iff the session holds a user of the role; 401 without a user, 403 for another role |
| Middleware.GatesAgreeWithoutUser | server/endpoints/middleware/middleware.go:34-43 | without a session user both gates answer 401 |
| Middleware.NoStoredUserPassesCheckStaff | server/endpoints/middleware/middleware.go:70-73 | no stored user can pass the staff gate, because "staff" is not a storable role |
| Middleware.StoredUserPassesCheckAdmin | server/endpoints/middleware/middleware.go:45-48 | a stored user passes the admin gate iff their role is admin |
| Middleware.ApplyGate | server/endpoints/middleware/middleware.go:14-20 | a passing gate changes nothing; a refusing gate writes its status and aborts; the session is untouched |
| AuthHandlers.LookupByEmail | server/endpoints/auth_handlers/handlers.go:31 | the row found by email is the stored user with that email, or the zero user |
| AuthHandlers.LoginMatchSpec | server/endpoints/auth_handlers/handlers.go:26-41 | a login is accepted iff a stored user has that email, that password and that role |
| AuthHandlers.LoginWithStoredPassword | server/endpoints/auth_handlers/handlers.go:26-41 | a stored user logs in with the password their row holds the hash of, and with no other password |
| AuthHandlers.Login | server/endpoints/auth_handlers/handlers.go:19-67 | 400 for an unreadable body; 401 and nothing changed for a mismatch; otherwise the user is admitted |
| AuthHandlers.Admit | server/endpoints/auth_handlers/handlers.go:43-66 | an admitted user gets their last-login time stamped and the session set to them; 200, or 500 when the session cannot be saved |
| AuthHandlers.Probe | server/endpoints/auth_handlers/handlers.go:69-88 | the auth check answers 401 without a user, 500 for a foreign session value, and 200 with the session's user |
| AuthHandlers.ChangePasswordAccepted | server/endpoints/auth_handlers/handlers.go:90-158 | a password change succeeds iff a user is logged in, the body reads, the old password matches the stored one and hashing succeeds |
| AuthHandlers.WithPasswordValid | server/endpoints/auth_handlers/handlers.go:141-157 | replacing a password keeps the store valid and changes nothing else of any user |
| AuthHandlers.ChangePassword | server/endpoints/auth_handlers/handlers.go:90-158 | writes the status of the change and stores the new digest only when it is accepted |
| AuthHandlers.LoginAfterPasswordChange | server/endpoints/auth_handlers/handlers.go:130-157 | after a change the new password logs in and the old one no longer does |
| AuthHandlers.NewUserRow | server/endpoints/auth_handlers/handlers.go:179-185 | a registered row starts with a plain password, no last login and no avatar |
| AuthHandlers.Register | server/endpoints/auth_handlers/handlers.go:162-196 | only an admin session may register; the user is stored as CreateUser stores it, with 201 |
| AuthHandlers.RegisteredUserCanLogIn | server/endpoints/auth_handlers/handlers.go:162-196 | a registered user can log in with the email, password and role given at registration |
| AuthHandlers.Delete | server/endpoints/auth_handlers/handlers.go:198-213 | 400 for an id ParseUint refuses; 500 and no change for an id of 2^63 or more or a delete the schema refuses; otherwise 200 and the as-created delete |
| AuthHandlers.Logout | server/endpoints/auth_handlers/handlers.go:215-227 | on a successful save the session is emptied with 200; otherwise 500, abort, session unchanged |
| UserHandlers.LookupById | server/endpoints/user_handlers/handlers.go:22-25 | the row found by id is the stored user with the id Atoi reads, or the zero user |
| UserHandlers.Profile | server/endpoints/user_handlers/handlers.go:14-37 | 400 iff the id is empty, otherwise 200 with a profile |
| UserHandlers.ProfileOfStored | server/endpoints/user_handlers/handlers.go:14-37 | asking for a stored user's rendered id yields that user's projection |
| UserHandlers.ProfileOfUnknown | server/endpoints/user_handlers/handlers.go:22-36 | an id no user has still yields 200, with the zero user's projection |
| UserHandlers.GetProfile | server/endpoints/user_handlers/handlers.go:14-37 | writes the profile status and returns the profile body |
| UserHandlers.WithAvatar | server/endpoints/user_handlers/handlers.go:55-57 | only the named user's avatar changes |
| UserHandlers.AvatarUpdate | server/endpoints/user_handlers/handlers.go:40-63 | 401 without a user, 400 without a file; otherwise the avatar is set to the processed name |
| UserHandlers.RefusedAvatarClearsAvatar | server/endpoints/user_handlers/handlers.go:49-62 | a refused extension writes 400, yet the avatar is still saved, as the empty name |
| UserHandlers.UsersWithRole | server/endpoints/user_handlers/handlers.go:67-103 | the listing holds exactly the stored users of the role asked for |
| UserHandlers.StaffListEmpty | server/endpoints/user_handlers/handlers.go:81 | the staff listing is always empty, because "staff" is not a storable role |
| UserHandlers.GetAllUsers | server/endpoints/user_handlers/handlers.go:67-103 | returns the projections of those users, in store order |
| CourseHandlers.VisibleCourses | server/endpoints/course_handlers/handlers.go:53-74 | a student sees exactly their enrolled courses, a teacher the courses they teach, anyone else all courses |
| CourseHandlers.CourseById | server/endpoints/course_handlers/handlers.go:23-44 | a single course is the stored course with that id, or the zero course |
| CourseHandlers.GetCourses | server/endpoints/course_handlers/handlers.go:19-83 | 400 for an unreadable id; 200 with the course by id; otherwise the courses visible to the session user |
| CourseHandlers.StudentSeesEnrolledCourse | server/endpoints/course_handlers/handlers.go:57-62 | every course a student is enrolled in is listed for them |
| CourseHandlers.NewCourseRow | server/endpoints/course_handlers/handlers.go:105-114 | the new course carries the form's fields, the image name and the teacher converted to uint |
| CourseHandlers.AddCourse | server/endpoints/course_handlers/handlers.go:87-132 | 400 for a missing field or an unreadable teacher id; otherwise the course is stored as CreateCourse stores it |
| CourseHandlers.NegativeTeacherRefused | server/endpoints/course_handlers/handlers.go:98-105 | a negative teacher id wraps to a uint no user has, so the course is refused |
| CourseHandlers.DeleteCourseById | server/endpoints/course_handlers/handlers.go:134-150 | 400 for an id ParseUint refuses; 500 and no change for an id of 2^63 or more or a delete the schema refuses; otherwise 200 and the as-created delete |
| CourseHandlers.ParseUintIgnoringError | server/endpoints/course_handlers/handlers.go:175 | the id read with its error ignored is the parsed value, or 0 |
| CourseHandlers.NewEnrollmentRow | server/endpoints/course_handlers/handlers.go:199-207 | a new enrolment is unpaid, starts now and ends the course's months later |
| CourseHandlers.AddParticipant | server/endpoints/course_handlers/handlers.go:174-216 | writes the enrolment status and stores the enrolment only on 200 |
| CourseHandlers.EnrolledOnce | server/endpoints/course_handlers/handlers.go:174-216 | an accepted enrolment is stored, and the store stays valid |
| CourseHandlers.RemoveParticipant | server/endpoints/course_handlers/handlers.go:218-234 | 500 for an unreadable id; otherwise 200 and exactly that student's enrolments in that course are removed |
| CourseHandlers.RemoveEnrollmentsValid | server/endpoints/course_handlers/handlers.go:218-234 | removing enrolments keeps the store valid |
| CourseHandlers.PaymentsTouchOnlyNamed | server/endpoints/course_handlers/handlers.go:267-299 | a payment update changes only the enrolments of the named pairs, and no other table |
| CourseHandlers.PaymentsKeepValid | server/endpoints/course_handlers/handlers.go:267-299 | a payment update keeps the store valid |
| CourseHandlers.UpdateStudentPayments | server/endpoints/course_handlers/handlers.go:267-299 | 400 for an unreadable body; otherwise 200 and every named enrolment is updated in turn |
| LessonHandlers.NewLessonRow | server/endpoints/lesson_handlers/handlers.go:19-40 | the new lesson carries the request's course, name and description, and starts now |
| LessonHandlers.AddLesson | server/endpoints/lesson_handlers/handlers.go:19-40 | 400 for an unreadable body; otherwise the lesson is stored as CreateLesson stores it and returned |
| LessonHandlers.AddedLessonListed | server/endpoints/lesson_handlers/handlers.go:19-40 | a created lesson is the last row and is among the lessons of its course |
| LessonHandlers.DeleteLessonById | server/endpoints/lesson_handlers/handlers.go:42-54 | 500 for an unreadable id; 200 and no change for a negative id; 500 and no change when the schema refuses; otherwise 200 and the as-created delete |
| LessonHandlers.CheckCourseEnrollment | server/endpoints/lesson_handlers/handlers.go:93-113 | a teacher may see a course iff they teach it, anyone else iff they are enrolled in it |
| LessonHandlers.LessonsOfId | server/endpoints/lesson_handlers/handlers.go:83-90 | the lessons listed are exactly the stored lessons of the course |
| LessonHandlers.GetLessons | server/endpoints/lesson_handlers/handlers.go:56-91 | 401 without a user, 400 for an unreadable id, 401 without access to the course; otherwise 200 with the course's lessons |
| LessonHandlers.EnrolledStudentSeesLessons | server/endpoints/lesson_handlers/handlers.go:93-113 | once enrolled, a non-teacher passes the access check |
| LessonHandlers.NewTasksRow | server/endpoints/lesson_handlers/handlers.go:130-153 | a task row names the lesson and holds the kept names of the homework and classwork files |
| LessonHandlers.AddTasks | server/endpoints/lesson_handlers/handlers.go:115-162 | 400 for an unreadable form; otherwise the task row is stored as CreateTasks stores it |
| LessonHandlers.TasksRowNames | server/endpoints/lesson_handlers/handlers.go:143-153 | the row has one name per uploaded file, each the file's name with spaces replaced |
| LessonHandlers.NegativeLessonIdRefused | server/endpoints/lesson_handlers/handlers.go:130-140 | a negative lesson id wraps to a uint no lesson has, so the tasks are refused |
| LessonHandlers.TasksOfId | server/endpoints/lesson_handlers/handlers.go:173-178 | the task rows read are exactly those of the lesson |
| LessonHandlers.MergeTasks | server/endpoints/lesson_handlers/handlers.go:180-207 | the merge loops return one row, with the lesson id as its id, holding every row's homework and classwork in order |
| LessonHandlers.GetLessonTasks | server/endpoints/lesson_handlers/handlers.go:164-210 | 400 for an unreadable id; otherwise 200 with the merged tasks |
| LessonHandlers.MergedTasksMembers | server/endpoints/lesson_handlers/handlers.go:185-207 | a name is in the merged homework (classwork) iff some task row of the lesson holds it |
| LessonHandlers.FirstTasksOf | server/endpoints/lesson_handlers/handlers.go:271-277 | the task row a recording is added to exists iff the lesson has task rows, and is one of them |
| LessonHandlers.ScreenRecord | server/endpoints/lesson_handlers/handlers.go:237-289 | 400 for an unreadable form or when the lesson has no task row; 500 when the form gives no recording name (the handler panics); otherwise the kept name is appended to the classwork of the lesson's first task row |
| LessonHandlers.RecordingAppendedOnce | server/endpoints/lesson_handlers/handlers.go:279-285 | a recording adds one name to one task row and keeps the store valid |
| LessonHandlers.SubmissionOf | server/endpoints/lesson_handlers/handlers.go:318-326 | a user's submission for a lesson exists iff one is stored, and is one of them |
| LessonHandlers.NewHomeworkRow | server/endpoints/lesson_handlers/handlers.go:334-346 | a new submission holds the file names, no points, no comment and is unchecked |
| LessonHandlers.SubmitHomework | server/endpoints/lesson_handlers/handlers.go:292-350 | 500 when an id is missing; 400 for an unreadable id or an existing submission; otherwise the submission is stored as CreateHomework stores it, even without files, and 200 is written |
| LessonHandlers.NewSubmissionUnique | server/endpoints/lesson_handlers/handlers.go:318-346 | a user's new submission for a lesson is their only one |
| LessonHandlers.SubmittedOnce | server/endpoints/lesson_handlers/handlers.go:292-350 | after a submission, a second one for the same lesson is refused |
| LessonHandlers.HomeworkByParam | server/endpoints/lesson_handlers/handlers.go:398-404 | the submission found is the stored one whose id Atoi reads, and one is found whenever it exists |
| LessonHandlers.GradeHomework | server/endpoints/lesson_handlers/handlers.go:374-418 | 400 for an empty id, an unreadable body or a checked submission; 500 when none is found; otherwise 200 and the graded row is saved |
| LessonHandlers.GradedDbValid | server/endpoints/lesson_handlers/handlers.go:411-415 | saving a grade keeps the store valid |
| LessonHandlers.GradedOnce | server/endpoints/lesson_handlers/handlers.go:406-415 | after a grading the submission is checked with those points and that comment, and grading it again is refused with 400 |
| LessonHandlers.GradedRowStored | server/endpoints/lesson_handlers/handlers.go:411-415 | the graded row replaces the submission |
| LessonHandlers.NegativeGradeNotStored | server/endpoints/lesson_handlers/handlers.go:411-417 | a negative grade is answered 200 yet stores nothing |
| LessonHandlers.GradesReply | server/endpoints/lesson_handlers/handlers.go:420-448 | 400 for an unreadable id; 200 iff the user has a submission for the lesson, with that submission |
| LessonHandlers.ViewGrades | server/endpoints/lesson_handlers/handlers.go:420-448 | writes that status and returns that submission |
| LessonHandlers.GradeIsViewed | server/endpoints/lesson_handlers/handlers.go:374-448 | a grade saved is what the grades view then returns |
| LeadHandlers.PadDigits | server/endpoints/lead_handlers/handlers.go:37-42 | a zero-padded field has the width asked for and only digits |
| LeadHandlers.PadDigitsValue | server/endpoints/lead_handlers/handlers.go:37-42 | a padded number reads back as the number |
| LeadHandlers.PadDigitsOfValue | server/endpoints/lead_handlers/handlers.go:37-42 | a digit field is the padding of its own value |
| LeadHandlers.ParseFullDate | server/endpoints/lead_handlers/handlers.go:37-42 | time.Parse("2006-01-02") accepts only ten-character texts naming a real calendar date |
| LeadHandlers.FormatDate | server/endpoints/lead_handlers/handlers.go:37-42 | a date is written as ten characters |
| LeadHandlers.FormatThenParse | server/endpoints/lead_handlers/handlers.go:37-42 | parsing a written date gives the date back |
| LeadHandlers.ParseThenFormat | server/endpoints/lead_handlers/handlers.go:37-42 | writing a parsed date gives the text back |
| LeadHandlers.LeapDayFields | server/endpoints/lead_handlers/handlers.go:37-42 | the fields of a 20yy-02-29 text are read as year 20yy, month 2, day 29 |
| LeadHandlers.LeapDayExamples | server/endpoints/lead_handlers/handlers.go:37-42 | 2024-02-29 is accepted and 2023-02-29 refused |
| LeadHandlers.CourseIdByName | server/endpoints/lead_handlers/handlers.go:78-84 | a non-zero course id found by name belongs to a stored course of that name |
| LeadHandlers.AddLead | server/endpoints/lead_handlers/handlers.go:14-96 | writes the status and the store of the lead outcome, the lead inserted with no check on source or status, and keeps the store valid |
| LeadHandlers.AddLeadKeepsValid | server/endpoints/lead_handlers/handlers.go:75-93 | adding a lead, whatever its source and status, keeps the store valid: one lead per phone, and every sales row names a stored lead |
| LeadHandlers.DuplicatePhoneWritesNothing | server/endpoints/lead_handlers/handlers.go:69-73 | a phone already stored is refused and nothing is written |
| LeadHandlers.StoredLeadCopiesRequest | server/endpoints/lead_handlers/handlers.go:54-75 | a stored lead passed every check and copies the request's fields and parsed date |
| LeadHandlers.OrphanLeadWithoutCourse | server/endpoints/lead_handlers/handlers.go:75-84 | a lead naming no stored course, whatever its source and status, is stored anyway, without a sales row, and answered 401 |
| LeadHandlers.UncheckedLeadStored | server/endpoints/lead_handlers/handlers.go:75-95 | a lead whose source or status is outside the intended lists, naming a stored course, is stored with its sales row and answered 201, so the stored leads are no longer all checked |
| LeadHandlers.SalesRowRefersToNewLead | server/endpoints/lead_handlers/handlers.go:86-95 | a sales row is written only with 201, and it refers to the new lead and to the course found |
| LeadHandlers.CreatedIffCourseFound | server/endpoints/lead_handlers/handlers.go:14-96 | the answer is 201 iff the checks pass and a stored course has the requested name |
| LeadHandlers.DeleteLeadsValid | server/endpoints/lead_handlers/handlers.go:104-114 | deleting leads keeps the store valid, because a delete that would leave a sales row naming a missing lead is refused |
| LeadHandlers.DeleteLeads | server/endpoints/lead_handlers/handlers.go:104-114 | 400 for an empty id; otherwise the leads the condition selects are removed, unless a sales row names one of them, when the foreign key refuses the whole delete |
| LeadHandlers.DeleteByRenderedId | server/endpoints/lead_handlers/handlers.go:104-114 | deleting by a lead's rendered id removes that lead iff no sales row names it, and never removes another lead |
| LeadHandlers.LeadWithSalesRowKept | server/endpoints/lead_handlers/handlers.go:86-113 | a lead stored together with its sales row can never be deleted by its id |
| SalesHandlers.OptionalString | server/endpoints/sales_handlers/handlers.go:21-31 | an optional text member is absent for a missing or null member, present for a string, and fails the binding otherwise |
| SalesHandlers.OptionalBool | server/endpoints/sales_handlers/handlers.go:21-31 | the same for the boolean member |
| SalesHandlers.DecodeUpdate | server/endpoints/sales_handlers/handlers.go:21-36 | a body binds iff its id is a positive uint and every optional member has its type |
| SalesHandlers.UpdateSales | server/endpoints/sales_handlers/handlers.go:19-64 | writes the status and the store of the update outcome |
| SalesHandlers.RefusedBodyChangesNothing | server/endpoints/sales_handlers/handlers.go:29-36 | an unreadable body is answered 400 and changes nothing |
| SalesHandlers.AtMostOneColumn | server/endpoints/sales_handlers/handlers.go:40-62 | an update is answered 200 and changes at most one column of the named row, and no other table |
| SalesHandlers.FirstPresentMemberWins | server/endpoints/sales_handlers/handlers.go:40-60 | the column changed is the first one present, in the order last call, result, paid, note |
| SalesHandlers.NoMemberNoChange | server/endpoints/sales_handlers/handlers.go:40-62 | a body naming no column changes nothing |
| SalesHandlers.PaidReadOnlyAsBoolean | server/endpoints/sales_handlers/handlers.go:25-36 | a "payed" member given as a string fails the binding |
| ClientApp.DashboardFor | client/codev-erp/src/App.tsx:38-55 | the view for a logged-in user's role is always one of the four dashboards, and the shared dashboard exactly for teachers and students |
| ClientApp.Route | client/codev-erp/src/App.tsx:24-62 | redirects go only to "/" or "/dashboard"; a dashboard is rendered iff the path is "/dashboard" with a session; a course page iff "/courses/:id" with a session, for that id; the profile iff a profile path; the login page iff "/login", or "/" without a session |
| ClientApp.GuardedPagesNeedSession | client/codev-erp/src/App.tsx:38-55 | logged out, no dashboard, lead, sales or course page is ever shown |
| ClientApp.RedirectsSettle | client/codev-erp/src/App.tsx:24-62 | following a redirect never leads to another redirect |
| ClientApp.SalesPageOnlyForSales | client/codev-erp/src/App.tsx:40-43 | for a storable role, the sales page is shown iff the role is sales, the lead page iff lead, the admin dashboard iff admin |
| ClientApp.ProfileIgnoresSession | client/codev-erp/src/App.tsx:57-58 | the profile routes are shown whatever the session |
| ClientAuth.ProbeResult | client/codev-erp/src/net/HttpRequests.ts:22-37 | the startup check yields a user only from a 200 reply, and that reply's user |
| ClientAuth.LoginResult | client/codev-erp/src/providers/AuthProvider.tsx:42-51 | a login yields a user only from a 200 reply, the user the session now holds |
| ClientAuth.AuthStore.constructor | client/codev-erp/src/providers/AuthProvider.tsx:15 | no user at first |
| ClientAuth.AuthStore.StartupProbe | client/codev-erp/src/providers/AuthProvider.tsx:17-25 | the current user becomes the probe's result |
| ClientAuth.AuthStore.Login | client/codev-erp/src/providers/AuthProvider.tsx:44-51 | an ok reply with a user sets the current user; anything else alerts and keeps it |
| ClientAuth.RestoreSession | client/codev-erp/src/providers/AuthProvider.tsx:17-28 | after the startup probe the client is logged in iff the session holds a user, and it is that user |
| ClientAuth.SignIn | client/codev-erp/src/providers/AuthProvider.tsx:31-51 | signing in succeeds without an alert iff the server accepts the credentials and saves the session; then the client holds the admitted user |
| ClientProfile.DigitRun | client/codev-erp/src/layouts/ProfileSettings.tsx:67-80 | the leading run of digits is all digits and stops at the first non-digit |
| ClientProfile.RenderNumber | client/codev-erp/src/net/HttpRequests.ts:57 | a non-negative number is rendered in decimal in the request path |
| ClientProfile.ParseIntReadsDigits | client/codev-erp/src/layouts/ProfileSettings.tsx:67-80 | parseInt reads the leading digits, whatever follows them |
| ClientProfile.LeadingZeroValue | client/codev-erp/src/layouts/ProfileSettings.tsx:67-80 | a leading zero does not change the number read |
| ClientProfile.Resolved | client/codev-erp/src/layouts/ProfileSettings.tsx:67-80 | the page stops treating the profile as the viewer's own iff it asked the server and got a profile; then it shows that profile |
| ClientProfile.ProfileView.constructor | client/codev-erp/src/layouts/ProfileSettings.tsx:56-61 | no profile, treated as own, modal closed |
| ClientProfile.ProfileView.ResolveProfile | client/codev-erp/src/layouts/ProfileSettings.tsx:67-80 | the first effect sets the profile and ownership as Resolved says, and nothing else |
| ClientProfile.ProfileView.MirrorEmail | client/codev-erp/src/layouts/ProfileSettings.tsx:82-88 | the email field follows the profile shown |
| ClientProfile.ProfileView.OpenPasswordModal | client/codev-erp/src/layouts/ProfileSettings.tsx:182-191 | the password modal opens only on one's own profile |
| ClientProfile.ProfileView.SubmitPasswords | client/codev-erp/src/layouts/ProfileSettings.tsx:97-123 | the modal closes and both passwords are posted under the names the server binds |
| ClientProfile.OpenProfile | client/codev-erp/src/layouts/ProfileSettings.tsx:56-88 | opening an address resolves the profile against the server's profile handler and mirrors its email |
| ClientProfile.OthersProfileShown | client/codev-erp/src/layouts/ProfileSettings.tsx:67-80 | a logged-in viewer opening another stored user's address sees that user, as someone else's |
| ClientProfile.LoggedOutShowsLoading | client/codev-erp/src/layouts/ProfileSettings.tsx:125-131 | logged out, the page shows no profile and stays on the loading notice |
| ClientProfile.UnknownIdShowsEmptyProfile | client/codev-erp/src/layouts/ProfileSettings.tsx:67-80 | an id no user has shows the zero profile, as someone else's |
| ClientProfile.LeadingZeroHidesOwnership | client/codev-erp/src/layouts/ProfileSettings.tsx:67-80 | one's own id with a leading zero shows one's own profile without the change buttons |
| ClientAdmin.LoadsOn | client/codev-erp/src/layouts/AdminDashboard.tsx:18-29 | each tab loads: courses only on the courses tab, students except on the staff tab, staff except on the users tab |
| ClientAdmin.StaffListingAlwaysEmpty | client/codev-erp/src/layouts/AdminDashboard.tsx:48-57 | the staff listing the dashboard requests is always empty |
| ClientAdmin.DefaultTeacher | client/codev-erp/src/layouts/AdminDashboard.tsx:154-158 | the proposed teacher is the first staff member, or stays as it was |
| ClientAdmin.DashboardCourseFormIncomplete | client/codev-erp/src/layouts/AdminDashboard.tsx:160-176 | the course form sends no price, so the server always finds it incomplete |
| ClientAdmin.ProposedTeacherRefused | client/codev-erp/src/layouts/AdminDashboard.tsx:152-166 | the teacher the form proposes by default (0) is refused by the store |
| ClientAdmin.CoursesPanel.constructor | client/codev-erp/src/layouts/AdminDashboard.tsx:145-152 | the panel shows the courses given and proposes teacher 0 |
| ClientAdmin.CoursesPanel.StaffLoaded | client/codev-erp/src/layouts/AdminDashboard.tsx:154-158 | a staff listing sets the default teacher |
| ClientAdmin.CoursesPanel.CourseDeleted | client/codev-erp/src/layouts/AdminDashboard.tsx:192-198 | an ok deletion drops exactly that course from the list |
| ClientAdmin.DeleteCourseFromDashboard | client/codev-erp/src/layouts/AdminDashboard.tsx:192-198 | the list matches the store's courses afterwards; a course with an enrolment or a task row stays, any other is deleted as the tags intend |
| ClientAdmin.FirstAvailable | client/codev-erp/src/layouts/AdminDashboard.tsx:349-362 | the student proposed is the first one not participating, and none exists iff all participate |
| ClientAdmin.ProposedStudentAvailable | client/codev-erp/src/layouts/AdminDashboard.tsx:349-362 | 0 is proposed iff every student participates |
| ClientAdmin.ParticipantsModal.constructor | client/codev-erp/src/layouts/AdminDashboard.tsx:340-342 | no participants and student 0 proposed |
| ClientAdmin.ParticipantsModal.Reselect | client/codev-erp/src/layouts/AdminDashboard.tsx:349-362 | with students listed the proposal becomes the first available one |
| ClientAdmin.ParticipantsModal.Removed | client/codev-erp/src/layouts/AdminDashboard.tsx:393-401 | an ok removal drops exactly that student from the participants |
| ClientAdmin.AddWhenNoneAvailableRefused | client/codev-erp/src/layouts/AdminDashboard.tsx:375-391 | with every student participating, adding posts student 0, which the server refuses |
| ClientAdmin.SetChangeIsMapUpdate | client/codev-erp/src/layouts/AdminDashboard.tsx:550-562 | recording a change keeps one entry per pair, sets that pair's value and keeps the others |
| ClientAdmin.PendingOutside | client/codev-erp/src/layouts/AdminDashboard.tsx:550-562 | the pending value of other pairs is unchanged by a change |
| ClientAdmin.SwitchBackStillFlipsAsWritten | client/codev-erp/src/layouts/AdminDashboard.tsx:780-782 | as written, switching the select away and back still leaves the opposite of the listed value pending |
| ClientAdmin.PendingIsLastSelection | client/codev-erp/src/layouts/AdminDashboard.tsx:780-789 | recording the option picked, the pending value is always the last option picked |
| ClientAdmin.UpsertKeepsOneEntryPerUser | client/codev-erp/src/layouts/AdminDashboard.tsx:629-637 | the course cache keeps one entry per user, the fetched one for the user asked |
| ClientAdmin.UsersPanel.constructor | client/codev-erp/src/layouts/AdminDashboard.tsx:523-548 | the panel lists the students given, with no changes and no course cache |
| ClientAdmin.UsersPanel.SetChange | client/codev-erp/src/layouts/AdminDashboard.tsx:550-562 | records the change as SetChangeList does and keeps the panel's invariant |
| ClientAdmin.UsersPanel.SendChanges | client/codev-erp/src/layouts/AdminDashboard.tsx:564-572 | the body sent is the list of recorded changes |
| ClientAdmin.UsersPanel.Registered | client/codev-erp/src/layouts/AdminDashboard.tsx:574-587 | an ok registration appends the reply to the list |
| ClientAdmin.UsersPanel.DeleteUser | client/codev-erp/src/layouts/AdminDashboard.tsx:589-598 | only a confirmed, ok deletion drops that user from the list |
| ClientAdmin.UsersPanel.DropdownChange | client/codev-erp/src/layouts/AdminDashboard.tsx:611-640 | selects the user and fetches their courses only when not cached |
| ClientAdmin.CoursesFetchedOnce | client/codev-erp/src/layouts/AdminDashboard.tsx:617-637 | after a fetch the user's courses are cached, so they are not fetched again |
| ClientAdmin.StaffRegistrationRefused | client/codev-erp/src/layouts/AdminDashboard.tsx:704 | registering a user with the offered role "staff" always fails |
| ClientLeads.WithFieldSetsOneValue | client/codev-erp/src/layouts/LeadPage.tsx:196-249 | an edit sets its field's value and keeps the other values in place |
| ClientLeads.SendOutcomeFor | client/codev-erp/src/layouts/LeadPage.tsx:26-64 | a row is posted iff its course is no placeholder and no value is empty, as the request the handler binds |
| ClientLeads.LeadPage.constructor | client/codev-erp/src/layouts/LeadPage.tsx:12-18 | the page starts with the listing, no new row, and the default row |
| ClientLeads.LeadPage.AddRow | client/codev-erp/src/layouts/LeadPage.tsx:123-140 | "Add row" shows the new row |
| ClientLeads.LeadPage.Edit | client/codev-erp/src/layouts/LeadPage.tsx:196-249 | an input sets its field |
| ClientLeads.LeadPage.SendLeadRequest | client/codev-erp/src/layouts/LeadPage.tsx:26-64 | the empty-value loop and the checks decide the outcome as SendOutcomeFor does, with the select's own placeholder names |
| ClientLeads.LeadPage.DeleteLead | client/codev-erp/src/layouts/LeadPage.tsx:102-116 | a deletion is requested iff confirmed, for the row's id |
| ClientLeads.NoCoursesPostedAsWritten | client/codev-erp/src/layouts/LeadPage.tsx:39 | as written, a row naming "NO COURSES" is posted, and the handler stores an orphan lead and answers 401 |
| ClientLeads.PlaceholdersNeverPosted | client/codev-erp/src/layouts/LeadPage.tsx:234-241 | with the select's placeholder names, no placeholder is ever posted |
| ClientLeads.DefaultRowMeetsServerChecks | client/codev-erp/src/layouts/LeadPage.tsx:17-18 | the default source, status and author pass the handler's checks |
| ClientLeads.DeleteWithoutIdRemovesNothing | client/codev-erp/src/layouts/LeadPage.tsx:102-116 | a row without an id requests lead 0, and nothing is deleted |
| ClientLeads.IndexOfT | client/codev-erp/src/layouts/LeadPage.tsx:169-170 | indexOf("T") is the first 'T' or -1 |
| ClientLeads.DateCell | client/codev-erp/src/layouts/LeadPage.tsx:169-170 | the cell is the text before the first 'T', or empty without one |
| ClientLeads.ListedDateIsEnteredDate | client/codev-erp/src/layouts/LeadPage.tsx:169-170 | a date accepted by the handler is shown unchanged in the listing |
| ClientSales.PutBody | client/codev-erp/src/layouts/SalesPage.tsx:41-56 | the body holds exactly the row id and the edited member |
| ClientSales.SalesPage.constructor | client/codev-erp/src/layouts/SalesPage.tsx:17 | no rows at first |
| ClientSales.SalesPage.Loaded | client/codev-erp/src/layouts/SalesPage.tsx:23-39 | the rows are the listing's, one for one, with a null note shown empty |
| ClientSales.SalesPage.UpdateSalesRow | client/codev-erp/src/layouts/SalesPage.tsx:41-56 | the list is patched, then the request names the row in its path and body |
| ClientSales.PatchRowsChangesOneColumn | client/codev-erp/src/layouts/SalesPage.tsx:41-46 | an edit changes only the edited column of the rows with that id |
| ClientSales.SameValueSameRows | client/codev-erp/src/layouts/SalesPage.tsx:41-46 | writing a value already held changes no row |
| ClientSales.PaidEditNeverStored | client/codev-erp/src/layouts/SalesPage.tsx:114 | a paid edit is answered 200 and stores nothing, because the handler reads a boolean "payed" |
| ClientSales.TextEditsStayInStep | client/codev-erp/src/layouts/SalesPage.tsx:93-131 | an edit of the last call, result or note is stored, so page and store stay in step |
| ClientCourse.CardLabel | client/codev-erp/src/layouts/CourseDetailPage.tsx:161 | a lesson card is labelled with its position counted from 1 |
| ClientCourse.CoursePage.constructor | client/codev-erp/src/layouts/CourseDetailPage.tsx:11-14 | no course, no lessons, no modal open |
| ClientCourse.CoursePage.CourseFetched | client/codev-erp/src/layouts/CourseDetailPage.tsx:22-30 | an ok reply sets the course |
| ClientCourse.CoursePage.LessonsFetched | client/codev-erp/src/layouts/CourseDetailPage.tsx:32-40 | an ok reply sets the lessons |
| ClientCourse.CoursePage.OpenAddLesson | client/codev-erp/src/layouts/CourseDetailPage.tsx:91-103 | only a teacher can open the add-lesson form |
| ClientCourse.CoursePage.LessonCreated | client/codev-erp/src/layouts/CourseDetailPage.tsx:191-206 | the form closes only on an ok reply |
| ClientCourse.CoursePage.SelectLesson | client/codev-erp/src/layouts/CourseDetailPage.tsx:108-115 | a card opens that lesson's modal |
| ClientCourse.CourseShown | client/codev-erp/src/layouts/CourseDetailPage.tsx:22-30 | a course is shown iff the id reads as an integer |
| ClientCourse.OpenCourse | client/codev-erp/src/layouts/CourseDetailPage.tsx:22-49 | opening the page shows the course and the lessons the server handlers return |
| ClientCourse.CreateLessonFromPage | client/codev-erp/src/layouts/CourseDetailPage.tsx:191-206 | the request passes CheckStaff before AddLesson; only then is the lesson stored as CreateLesson does and the list refreshed; for a session holding any stored user nothing changes |
| ClientCourse.UnknownCourseShownEmpty | client/codev-erp/src/layouts/CourseDetailPage.tsx:22-30 | an id no course has shows the zero course |
| ClientCourse.TeacherSeesOwnLessons | client/codev-erp/src/layouts/CourseDetailPage.tsx:32-40 | a teacher sees all lessons of a course they teach and none of another's course |
| ClientCourse.UnenrolledSeesNoLessons | client/codev-erp/src/layouts/CourseDetailPage.tsx:116-120 | a non-teacher enrolled nowhere sees "No lessons yet." |
| ClientCourse.CreatedLessonListed | client/codev-erp/src/layouts/CourseDetailPage.tsx:191-206 | at handler level, a lesson AddLesson stores for a course is in its teacher's next listing (as routed, CheckStaff refuses the creation) |
| ClientCourse.OfferedTabs | client/codev-erp/src/layouts/CourseDetailPage.tsx:520-616 | the files tab is always offered; the add, rate and record tabs iff the user is a teacher; the send and grades tabs iff a student; no tab twice |
| ClientCourse.JsonList | client/codev-erp/src/layouts/CourseDetailPage.tsx:296-310 | an empty list arrives as null, any other as itself |
| ClientCourse.GradesPanelOf | client/codev-erp/src/layouts/CourseDetailPage.tsx:812-851 | points are shown iff a checked submission arrived, with its points and a non-empty comment (the fallback text when none was given); the render fails iff no body arrived; otherwise the waiting notice |
| ClientCourse.LessonModal.constructor | client/codev-erp/src/layouts/CourseDetailPage.tsx:282-291 | the modal opens on the files tab with nothing chosen |
| ClientCourse.LessonModal.SelectTab | client/codev-erp/src/layouts/CourseDetailPage.tsx:520-616 | only an offered tab can be selected |
| ClientCourse.LessonModal.TasksFetched | client/codev-erp/src/layouts/CourseDetailPage.tsx:296-310 | the file names shown are the reply's lists as JSON delivers them |
| ClientCourse.LessonModal.GradesFetched | client/codev-erp/src/layouts/CourseDetailPage.tsx:313-326 | the grades body is kept as received |
| ClientCourse.LessonModal.ChooseFiles | client/codev-erp/src/layouts/CourseDetailPage.tsx:328-344 | each file input sets its own list only |
| ClientCourse.LessonModal.TasksUploaded | client/codev-erp/src/layouts/CourseDetailPage.tsx:346-374 | success clears both lists with the success alert; failure keeps them |
| ClientCourse.LessonModal.HomeworkUploaded | client/codev-erp/src/layouts/CourseDetailPage.tsx:376-404 | success clears the teacher's lists, not the student's, and alerts the reply's message |
| ClientCourse.LessonModal.ToggleRecording | client/codev-erp/src/layouts/CourseDetailPage.tsx:742-746 | the record button flips the recording state and starts when it turns on |
| ClientCourse.LessonModal.RecorderStopped | client/codev-erp/src/layouts/CourseDetailPage.tsx:422-431 | a stop or an error ends the recording |
| ClientCourse.FirstSpace | client/codev-erp/src/layouts/CourseDetailPage.tsx:467-468 | the position of the first space, or -1 |
| ClientCourse.ReplaceFirstSpace | client/codev-erp/src/layouts/CourseDetailPage.tsx:467-468 | String.replace(" ", "_") changes the first space only |
| ClientCourse.SanitizeIsReplace | server/endpoints/endpoint_utils.go:44 | the server's sanitizing is the replacement of every space |
| ClientCourse.SanitizeFramed | server/endpoints/endpoint_utils.go:44 | sanitizing a name framed by space-free text replaces every space of its middle |
| ClientCourse.StoredRecordingName | client/codev-erp/src/layouts/CourseDetailPage.tsx:467-468 | the recording is stored as screenrecord_ + the lower-cased date with every space replaced + .webm |
| ClientCourse.SentNameIsNotStoredName | client/codev-erp/src/layouts/CourseDetailPage.tsx:467-468 | the name the client sends keeps spaces, so the stored name differs from it |
| ClientCourse.TasksFormNamesLesson | client/codev-erp/src/layouts/CourseDetailPage.tsx:346-374 | the tasks form the modal posts is readable and names the lesson |
| ClientCourse.LoggedOutHomeworkRefused | client/codev-erp/src/layouts/CourseDetailPage.tsx:376-404 | without a user the homework form carries "undefined", which the handler refuses |
| ClientCourse.NoTasksIffNoFiles | client/codev-erp/src/layouts/CourseDetailPage.tsx:694-715 | "No tasks" is shown iff no task row of the lesson holds a file |
| ClientCourse.NoSubmissionShownAsWaiting | client/codev-erp/src/layouts/CourseDetailPage.tsx:812-851 | a student without a submission is shown "waiting to be checked" |
| ClientCourse.GradeShownToStudent | client/codev-erp/src/layouts/CourseDetailPage.tsx:812-851 | at handler level, a grade GradeHomework saves is what the student's panel shows (as routed, CheckStaff refuses the grading) |
| ClientCourse.SaveRecording | client/codev-erp/src/layouts/CourseDetailPage.tsx:447-489 | the upload passes CheckStaff before ScreenRecord; a recording is saved iff the gate passes, the lesson has task rows and the save succeeds, as WithRecording says; for a session holding any stored user nothing is saved |

## Left out

- Network, `fetch`, `alert`, `confirm`, `MediaRecorder`, `location.reload` and the React render cycle. Replies are method parameters, or the server handler's method is called directly.
- React stale closures and batched state updates. Each handler sees the state left by the previous one.
- wouter's path matching. The address is given as its segments.
- The throw of `useAuth` outside its provider. The model has a single provider.
- JS numbers above 2^53 and `Number(id)` giving NaN. Ids are naturals.
- ClientProfile.ParseInt: parseInt's skipping of leading whitespace and its reading of a 0x prefix as hexadecimal are left out. An address segment is taken to hold neither.
- CreatedLessonListed, GradeShownToStudent: these lemmas are about the handlers and skip the route middleware. As routed, CheckStaff runs before AddLesson, AddTasks, ScreenRecord and GradeHomework and refuses every stored user, so these teacher actions always end in 403. CreateLessonFromPage and SaveRecording apply the gate.
- Listings that arrive as JSON null are treated as empty.
- The course page's teacher avatar and its "Added at" date text. They are rendering only.
- StudentSubmissionList is not part of this model.
- The download of a recording as `.mp4`. Only the `.webm` upload is modelled.
- Handlers outside the modelled core: GetCourseParticipants, GetStudentCourses, ListHomework, GetLeads, GetSales and FileDownload. The client receives their replies as parameters.
- ValidateUser is not part of this model.
- main.go registers no lead or sales routes. The handlers are modelled as written.
- bcrypt is modelled as an ideal digest. Salts, the cost factor and the 72-byte limit are left out; a hashing failure is a boolean parameter.
- `strings.ToLower` is ASCII-only here. Unicode case mapping is left out.
- Atoi and ParseUint read base-10 digits within the 64-bit ranges, Atoi after an optional '+' or '-', as Go does. The error values strconv returns are reduced to None.
- AuthHandlers.Delete, CourseHandlers.DeleteCourseById: an id of 2^63 or more is taken to be refused by the Postgres driver, which cannot pass it as a bigint, so the handler answers 500.
- Database driver errors other than the constraints modelled. A failed save is a boolean parameter where the handler reads it.
- The sales table's schema. The Sales model is not in models.go, so its columns are inferred from the handlers that write it.
- CreateSales: the Lead association is taken to give sales.lead_id a foreign key, as GORM's AutoMigrate creates one by default. The Course association is not modelled as a foreign key, because the column it uses cannot be read from the modelled files.
- DeleteCourse, DeleteCourseAsWritten: sales rows naming the deleted course are kept, since the course reference of a sales row is not modelled as a foreign key.
- UpdateSales: the handler writes a column named "payed". The model assumes the Sales struct maps its Paid field to that column. Under GORM's default naming the column would be "paid", and that update would fail and store nothing.
- NextId: a new row takes the largest stored id plus one, so the id of a deleted last row is given out again. Postgres sequences never reuse an id, so after such a delete the model can hand out an id the database would not.
- LeadHandlers.AddLead: runs the lead insert as the tags are written. The intended checks are stated by Models.CreateLead and Models.LeadsChecked, which no handler uses.
- JSON member names are matched exactly. encoding/json's case-insensitive matching is left out.
- SQL row order. Listings are in insertion order.
- GORM's Preload of associations.
- Points beyond the 64-bit column. A negative grade is modelled as a failed save.
- Time. One clock reading `now` per request is a parameter.
- The body gin emits when two JSON writes happen in one request. Only the first status is kept.
- DeleteLeads: the raw SQL condition is a parameter (`rawSelected`). Only the id branch is modelled.
- UpdateStudentPayments: the effect of one payment on an enrolment is an abstract function that keeps ids and references.
- RemoveParticipant: the handler passes three values for the two placeholders of its WHERE clause. GORM hands the surplus value to the driver, which with Postgres most likely refuses the statement, so every removal would answer 500. The model deletes the enrolments the two placeholders select.
- ClientSales: the client keeps the paid column as a string while the server's column is a boolean. The model keeps the client's string.
- HashInjective, UnenrolledSeesNoLessons, PatchRowsChangesOneColumn, SameValueSameRows, LoggedOutShowsLoading, PlaceholdersNeverPosted and DefaultRowMeetsServerChecks: these lemmas follow from the definitions directly and need no proof steps.

## Findings

| source | as written | input that shows it | evidently intended | confidence | as-written member | corrected member |
|---|---|---|---|---|---|---|
| server/db/models/models.go:98-99 | the tags read `check (source in ...)` without the colon GORM needs, and the status tag tests `source` against the status values | a lead with source "tiktok" and status "lost" is stored | source limited to dm, story, wp, ad and status to new, answered, awaiting, demo | high, not executed | Models.CreateLeadAsWritten, Models.LeadChecksMissing, LeadHandlers.UncheckedLeadStored | Models.CreateLead |
| server/db/models/models.go:24-73 | the has-many fields User.CoursesTaught, User.EnrolledCourses, Course.Enrolled and Lesson.Tasks use the same keys as the tagged belongs-to fields, so GORM creates their constraints, which have no ON DELETE action, instead of the tagged SET NULL and CASCADE | deleting a user who teaches a course, or a course with one enrolment: the statement fails, the handler answers 500 and nothing is deleted | the tagged actions: the course loses its teacher; the course goes with its enrolments, its lessons and their task rows | medium, not executed | Models.DeleteUserAsWritten, Models.DeleteLessonAsWritten, Models.DeleteCourseAsWritten, Models.TeacherDeleteRefused, Models.EnrolledCourseDeleteRefused | Models.DeleteUser, Models.DeleteUserValid, Models.DeleteLesson, Models.DeleteLessonValid, Models.DeleteCourse, Models.DeleteCourseValid |
| client/codev-erp/src/layouts/LeadPage.tsx:39 | the placeholder check names "NO COURSE", but the select's option is "NO COURSES" | a complete row with course "NO COURSES" is posted; the handler stores an orphan lead and answers 401 | the check names the select's own placeholder | high, not executed | ClientLeads.IsPlaceholderAsWritten, ClientLeads.NoCoursesPostedAsWritten | ClientLeads.IsPlaceholder, ClientLeads.PlaceholdersNeverPosted, ClientLeads.LeadPage.SendLeadRequest |
| client/codev-erp/src/layouts/AdminDashboard.tsx:780-782 | the select's change handler records `!course.paid`, whatever option was picked | switching a course's select away and back: the select shows the listed value, yet the opposite is pending and would be sent | the handler records the option picked | medium, not executed | ClientAdmin.OnPaymentSelectAsWritten, ClientAdmin.SwitchBackStillFlipsAsWritten | ClientAdmin.OnPaymentSelect, ClientAdmin.PendingIsLastSelection |
