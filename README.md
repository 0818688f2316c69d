# School backend service layer in Dafny

This project models the service layer of a small school-management web API (ASP.NET Core over
Entity Framework Core). Users register and log in with a role: student, teacher or
administrator. Teachers run courses with lessons, assignments and recommended books. Students
enrol in courses, submit assignments and get them graded. Every service operation answers
with the same success/error envelope.

Layout:

- `wrappers.dfy`: `Option`.
- `responses.dfy`: the envelope (`BaseResponse`, `BaseResponse<T>`) and its factories.
- `entities.dfy`: the rows and the role names.
- `query.dfy`: the LINQ shapes the services use over a table. These are `Where`, `Select`,
  `OrderBy` (a stable sort by a total preorder) and `Count`. Rows come in ascending key order.
- `store.dfy`: the database, as a class `SchoolDb` with one map per table, one identity counter
  per table, and `Valid()`. `Valid()` states that keys match ids and stay below their counter,
  the unique indexes on email and role name, that every user's role exists, one enrolment per
  (course, student), one submission per (assignment, student), and that no book is linked
  twice to the same course.
- One module per service (`Auth`, `Courses`, `Submissions`, `Assignments`, `Lessons`, `Books`,
  `Seeding`). Each service is a class holding the database. Its read operations are functions
  that read the database. Its write operations are methods. Each method keeps `Valid()`,
  states the whole new table, and states every error answer.
- `Controllers` (the `BaseController` helpers) and `SubmissionEndpoints` (the submissions
  controller).
- `Scenarios`: call sequences across operations.

Clock, password digest and token issuer are inputs:

- The clock is a `now` argument of each writing operation.
- The password digest is a function given to `AuthService`: SHA-256 of the UTF-8 bytes, then
  Base64. Where a property needs it, the model assumes the digest is collision-free
  (`Injective`).
- The token issuer (`IJwtService.GenerateToken`) is also a function given to `AuthService`.

## Model

| member | source | states |
|---|---|---|
| Responses.SuccessResponse | WebApplication3/Models/Common/BaseResponse.cs:8-15 | a success with the given message, by default "Операция выполнена успешно" |
| Responses.ErrorResponse | WebApplication3/Models/Common/BaseResponse.cs:17-24 | a failure with the given message, by default "Произошла ошибка" |
| Responses.SuccessResponseOf | WebApplication3/Models/Common/BaseResponse.cs:33-41 | a success carrying exactly the given data, hence consistent |
| Responses.ErrorResponseOf | WebApplication3/Models/Common/BaseResponse.cs:43-51 | a failure without data, hence consistent |
| Responses.FactoriesDistinguishOutcome | WebApplication3/Models/Common/BaseResponse.cs:33-51 | no success envelope equals an error envelope; a success envelope determines its data and message |
| Entities.RoleNamesDistinct | WebApplication3/Models/Common/Roles.cs:5-7 | the three role names are pairwise different |
| Auth.AuthService.VerifyAcceptsOwnDigest | WebApplication3/Services/Implementations/AuthService.cs:236-247 | a password verifies against its own digest |
| Auth.AuthService.VerifyRejectsOtherPasswords | WebApplication3/Services/Implementations/AuthService.cs:236-247 | with a collision-free digest, a password verifies against another password's digest exactly when the two are equal |
| Auth.AuthService.Login | WebApplication3/Services/Implementations/AuthService.cs:27-83 | no user with the email gives "user not found"; for the user with that email, a wrong password gives "wrong password" and a right one gives the token and profile with the user's role name |
| Auth.AuthService.Register | WebApplication3/Services/Implementations/AuthService.cs:85-156 | a taken email is refused; an unknown role name is refused; otherwise exactly one user is added under the next id with the digest of the password and the named role, and a token is returned; a refusal changes nothing |
| Auth.AuthService.ChangePassword | WebApplication3/Services/Implementations/AuthService.cs:158-198 | an unknown user or a wrong current password changes nothing; otherwise only that user's digest is replaced by the new password's digest |
| Auth.AuthService.GetRoles | WebApplication3/Services/Implementations/AuthService.cs:200-227 | one (id, name) entry per stored role, and exactly the stored roles |
| Auth.AuthService.GetUserById | WebApplication3/Services/Implementations/AuthService.cs:229-234 | a user is returned exactly when a stored user has that id, and it is that user |
| Auth.UserIdsAreKeys | WebApplication3/Data/ApplicationDbContext.cs:28 | every stored user sits under its own id |
| Courses.EnrollmentCount | WebApplication3/Services/Implementations/CourseService.cs:33 | the number of enrolments whose course is the given one |
| Courses.LessonCount | WebApplication3/Services/Implementations/CourseService.cs:34 | the number of lessons whose course is the given one |
| Courses.CourseService.GetAllCourses | WebApplication3/Services/Implementations/CourseService.cs:20-56 | one summary per course, exactly the summaries of the stored courses, each with that course's enrolment and lesson counts |
| Courses.CourseService.GetCourseById | WebApplication3/Services/Implementations/CourseService.cs:58-104 | "not found" for an unknown id; otherwise that course's summary with its counts |
| Courses.CourseService.CreateCourse | WebApplication3/Services/Implementations/CourseService.cs:106-149 | adds exactly one course under the next id, stamped now, reported with zero counts |
| Courses.CourseService.UpdateCourse | WebApplication3/Services/Implementations/CourseService.cs:151-199 | an unknown id changes nothing; otherwise only name, description and update time of that course change; the answer reports zero counts |
| Courses.CourseService.DeleteCourse | WebApplication3/Services/Implementations/CourseService.cs:201-232 | an unknown id changes nothing; otherwise exactly that course is removed |
| Courses.CourseService.EnrollStudent | WebApplication3/Services/Implementations/CourseService.cs:234-294 | unknown course, unknown student and an existing enrolment are refused in that order, changing nothing; otherwise exactly one active enrolment is added under the next id |
| Courses.CourseService.UnenrollStudent | WebApplication3/Services/Implementations/CourseService.cs:296-329 | without an enrolment of that student in that course nothing changes; otherwise exactly that enrolment is removed |
| Submissions.Graded | WebApplication3/Services/Implementations/SubmissionService.cs:274-277 | grading sets score, feedback, grading time and grading teacher and keeps every other field |
| Submissions.RegradeOverwrites | WebApplication3/Services/Implementations/SubmissionService.cs:274-277 | grading twice is the same as grading once with the second grade |
| Submissions.SubmissionService.GetSubmissionsByAssignment | WebApplication3/Services/Implementations/SubmissionService.cs:20-63 | exactly the assignment's submissions, as many as there are, in ascending submission time |
| Submissions.SubmissionService.GetSubmissionsByStudent | WebApplication3/Services/Implementations/SubmissionService.cs:65-108 | exactly the student's submissions, as many as there are, newest first |
| Submissions.SubmissionService.GetSubmissionById | WebApplication3/Services/Implementations/SubmissionService.cs:110-161 | "not found" for an unknown id; otherwise that submission |
| Submissions.SubmissionService.CreateSubmission | WebApplication3/Services/Implementations/SubmissionService.cs:163-244 | unknown assignment, unknown student and a second submission are refused in that order, changing nothing; otherwise exactly one ungraded submission stamped now is added under the next id |
| Submissions.SubmissionService.GradeSubmission | WebApplication3/Services/Implementations/SubmissionService.cs:246-313 | unknown submission and unknown grading user are refused, changing nothing; otherwise only that submission changes, to its graded form |
| Submissions.SubmissionService.DeleteSubmission | WebApplication3/Services/Implementations/SubmissionService.cs:315-346 | an unknown id changes nothing; otherwise exactly that submission is removed |
| Assignments.EnrolledCourseIds | WebApplication3/Services/Implementations/AssignmentService.cs:102-105 | a course is listed exactly when the user is enrolled in it; the list is empty exactly when the user has no enrolment |
| Assignments.AssignmentService.GetAllAssignments | WebApplication3/Services/Implementations/AssignmentService.cs:20-56 | exactly the stored assignments, one entry each, by ascending due date |
| Assignments.AssignmentService.GetAssignmentsByCourse | WebApplication3/Services/Implementations/AssignmentService.cs:58-95 | exactly the course's assignments, as many as there are, by ascending due date |
| Assignments.AssignmentService.GetMyAssignments | WebApplication3/Services/Implementations/AssignmentService.cs:97-151 | a user without enrolments gets an empty list and its own message; otherwise exactly the assignments of the courses the user is enrolled in, as many as there are, by ascending due date |
| Assignments.AssignmentService.GetAssignmentById | WebApplication3/Services/Implementations/AssignmentService.cs:153-198 | "not found" for an unknown id; otherwise that assignment |
| Assignments.AssignmentService.CreateAssignment | WebApplication3/Services/Implementations/AssignmentService.cs:200-256 | an unknown course is refused, changing nothing; otherwise exactly one assignment stamped now is added under the next id |
| Assignments.AssignmentService.UpdateAssignment | WebApplication3/Services/Implementations/AssignmentService.cs:258-319 | unknown assignment, then unknown target course, are refused, changing nothing; otherwise the request's fields replace that assignment's, keeping id and creation time |
| Assignments.AssignmentService.DeleteAssignment | WebApplication3/Services/Implementations/AssignmentService.cs:321-352 | an unknown id changes nothing; otherwise exactly that assignment is removed |
| Lessons.Overwritten | WebApplication3/Services/Implementations/LessonService.cs:230-236 | an update takes every field of the request and keeps id and creation time |
| Lessons.LessonService.GetAllLessons | WebApplication3/Services/Implementations/LessonService.cs:20-57 | exactly the stored lessons, one entry each, by ascending lesson date |
| Lessons.LessonService.GetLessonsByCourse | WebApplication3/Services/Implementations/LessonService.cs:59-97 | exactly the course's lessons, as many as there are, by ascending lesson date |
| Lessons.LessonService.GetLessonById | WebApplication3/Services/Implementations/LessonService.cs:99-145 | "not found" for an unknown id; otherwise that lesson |
| Lessons.LessonService.CreateLesson | WebApplication3/Services/Implementations/LessonService.cs:147-205 | an unknown course is refused, changing nothing; otherwise exactly one lesson stamped now is added under the next id |
| Lessons.LessonService.UpdateLesson | WebApplication3/Services/Implementations/LessonService.cs:207-270 | unknown lesson, then unknown target course, are refused, changing nothing; otherwise only that lesson changes, to its overwritten form |
| Lessons.LessonService.DeleteLesson | WebApplication3/Services/Implementations/LessonService.cs:272-303 | an unknown id changes nothing; otherwise exactly that lesson is removed |
| Books.LoadedIds | WebApplication3/Services/Implementations/BookService.cs:249 | the loaded links of a book are its links to courses that exist |
| Books.MapToBookResponse | WebApplication3/Services/Implementations/BookService.cs:234-256 | copies every scalar field and lists one (id, name, description) entry per loaded course link: as many entries as linked ids whose course exists, and entry `i` describes the `i`-th of them |
| Books.MapToBookResponseEntries | WebApplication3/Services/Implementations/BookService.cs:249-254 | an entry is listed exactly when it describes a stored course the book is linked to |
| Books.ResolveCourses | WebApplication3/Services/Implementations/BookService.cs:96-98 | the linked courses are exactly the requested ids that name a course, each once, in ascending id order |
| Books.TitleOrders | WebApplication3/Services/Implementations/BookService.cs:65 | ordering by title is a total preorder |
| Books.Revised | WebApplication3/Services/Implementations/BookService.cs:125-146 | an update takes every field of the request, keeps id and creation time, and replaces the links by the requested existing courses, or clears them for an empty request list |
| Books.Unlink | WebApplication3/Services/Implementations/BookService.cs:223 | removes exactly the given course from the links and keeps them duplicate-free |
| Books.BookService.GetAllBooks | WebApplication3/Services/Implementations/BookService.cs:20-36 | exactly the stored books, one entry each, ordered by title |
| Books.BookService.GetBookById | WebApplication3/Services/Implementations/BookService.cs:38-56 | "not found" for an unknown id; otherwise that book's response |
| Books.BookService.GetBooksByCourse | WebApplication3/Services/Implementations/BookService.cs:58-75 | exactly the books linked to the course, as many as there are, ordered by title; none for a course that does not exist |
| Books.BookService.CreateBook | WebApplication3/Services/Implementations/BookService.cs:77-112 | adds exactly one book under the next id, linked to exactly the requested courses that exist |
| Books.BookService.UpdateBook | WebApplication3/Services/Implementations/BookService.cs:114-157 | an unknown id changes nothing; otherwise only that book changes, to its revised form |
| Books.BookService.DeleteBook | WebApplication3/Services/Implementations/BookService.cs:159-176 | an unknown id changes nothing; otherwise exactly that book is removed |
| Books.BookService.AddBookToCourse | WebApplication3/Services/Implementations/BookService.cs:178-206 | unknown book, unknown course and an existing link are refused in that order, changing nothing; otherwise the course is appended to that book's links |
| Books.BookService.RemoveBookFromCourse | WebApplication3/Services/Implementations/BookService.cs:208-232 | an unknown book, or a course the book is not linked to, changes nothing; otherwise exactly that link is dropped |
| Seeding.SeededRoles | WebApplication3/Services/Implementations/DataInitializationService.cs:21-35 | a non-empty roles table is left alone; an empty one gets exactly the roles 1, 2 and 3 named student, teacher and administrator, each keyed by its id and carrying its fixed description text |
| Seeding.SeedingIdempotent | WebApplication3/Services/Implementations/DataInitializationService.cs:23 | seeding twice is seeding once |
| Seeding.DefaultRolesUnique | WebApplication3/Services/Implementations/DataInitializationService.cs:27-29 | the seeded roles satisfy the unique index on role names |
| Seeding.DataInitializationService.Initialize | WebApplication3/Services/Implementations/DataInitializationService.cs:16-19 | the roles table becomes its seeded form and the database stays valid |
| Seeding.DataInitializationService.InitializeRoles | WebApplication3/Services/Implementations/DataInitializationService.cs:21-35 | the roles table becomes its seeded form and the database stays valid |
| Controllers.FindFirst | WebApplication3/Controllers/BaseController.cs:12 | no claim exactly when none has the type, compared ignoring case; otherwise the first claim of that type |
| Controllers.ParseInt32 | WebApplication3/Controllers/BaseController.cs:13 | a parsed value is within the 32-bit signed range |
| Controllers.ParseShowRoundTrip | WebApplication3/Controllers/BaseController.cs:13 | parsing the decimal form of any 32-bit integer gives that integer back |
| Controllers.GetCurrentUserId | WebApplication3/Controllers/BaseController.cs:10-18 | 0 without an id claim; otherwise the parsed value of the first id claim, or 0 when it does not parse |
| Controllers.CurrentUserIdOfPrintedClaim | WebApplication3/Controllers/BaseController.cs:10-18 | a caller whose first id claim is the decimal form of n is user n |
| Controllers.GetCurrentUserRole | WebApplication3/Controllers/BaseController.cs:20-24 | the empty string without a role claim; otherwise the value of the first role claim |
| Controllers.ControllerSuccess | WebApplication3/Controllers/BaseController.cs:26-34 | a success carrying the data, by default with the message "Успешно" |
| Controllers.ControllerSuccessPlain | WebApplication3/Controllers/BaseController.cs:36-43 | a success, by default with the message "Успешно" |
| Controllers.ControllerError | WebApplication3/Controllers/BaseController.cs:45-52 | a failure without data |
| Controllers.ControllerErrorPlain | WebApplication3/Controllers/BaseController.cs:54-61 | a failure with the message |
| Controllers.ControllerHelpersAgree | WebApplication3/Controllers/BaseController.cs:26-61 | the controller helpers build the same envelopes as the response factories for the same message |
| SubmissionEndpoints.SubmissionController.GetSubmissionsByAssignment | WebApplication3/Controllers/SubmissionController.cs:21-26 | the service's answer unchanged: exactly the assignment's submissions, as many as there are, in ascending submission time |
| SubmissionEndpoints.SubmissionController.GetSubmissionsByStudent | WebApplication3/Controllers/SubmissionController.cs:28-44 | refused with "access denied" exactly when the caller is not the requested student; otherwise the service's answer unchanged: exactly the caller's own submissions, as many as there are, newest first |
| SubmissionEndpoints.SubmissionController.GetSubmissionById | WebApplication3/Controllers/SubmissionController.cs:46-51 | found exactly when the submission exists, and then that submission |
| SubmissionEndpoints.SubmissionController.CreateSubmission | WebApplication3/Controllers/SubmissionController.cs:53-59 | a caller who is no stored user cannot submit; a new submission belongs to the caller; a refusal changes nothing |
| SubmissionEndpoints.SubmissionController.GradeSubmission | WebApplication3/Controllers/SubmissionController.cs:61-67 | succeeds exactly when the submission exists and the caller is a stored user; the caller is recorded in `GradedBy` |
| SubmissionEndpoints.SubmissionController.DeleteSubmission | WebApplication3/Controllers/SubmissionController.cs:69-74 | succeeds exactly when the submission exists; afterwards it is gone and nothing else changed |
| SubmissionEndpoints.AnonymousCallerIsNobody | WebApplication3/Controllers/BaseController.cs:17 | the fallback id 0 (no id claim, an unreadable one, or "0") names no stored user |
| Scenarios.RegisterThenLogin | WebApplication3/Services/Implementations/AuthService.cs:27-156 | after a successful registration, logging in with the same email and password succeeds with the same token and profile |
| Scenarios.RegisterTwice | WebApplication3/Services/Implementations/AuthService.cs:89-99 | a second registration with the same email is refused, and at most one user is added |
| Scenarios.ChangeThenLogin | WebApplication3/Services/Implementations/AuthService.cs:158-198 | after a successful password change, with a collision-free digest, the old password is refused and the new one accepted |
| Scenarios.SubmitThenGrade | WebApplication3/Controllers/SubmissionController.cs:53-67 | a submission graded by a stored teacher keeps its id and student and records that teacher's score and id in `GradedBy` |

## Left out

- Navigation-derived names (course name, assignment title, student name, grading teacher's name, a
  course's teacher name beyond the fixed placeholder) are not in the responses. They come from
  EF Core `Include` joins and add nothing to what is decided.
- Cascading deletes are not modelled: a delete removes only the one row. They are database
  foreign-key behaviour, not service code.
- The `catch` blocks that turn exceptions into error envelopes are left out. Exceptions come
  from the database driver, which is not part of this model.
- Request validation attributes (`[Required]`, `[EmailAddress]`, string lengths) are left out.
  They run in the MVC pipeline before a service is called.
- Search and Elasticsearch, the JWT internals, SHA-256 and Base64, `[Authorize]` role checks,
  `Program.cs` and the request-logging middleware are left out. They are infrastructure
  outside the service layer.
- `UpdateLessonRequest` and `CreateBookRequest` are not part of this model. Updates and
  creations use the fields the services read from them.
- Book course entries carry id, name and description only. The other `CourseResponse` fields
  stay at their defaults in the source.
- Books.MapToBookResponse: lists the course entries in the order the links were made. The
  `BookCourses` join table keeps no position and the source promises no order, so this order
  is the model's choice.
- Controllers.FindFirst: folds case on ASCII letters only, while `OrdinalIgnoreCase` also
  folds other letters. The claim types looked up are ASCII constants, so the two can differ
  only on a claim type holding non-ASCII letters.
- Controllers.ParseInt32: does not accept trailing NUL characters, which `int.TryParse`
  tolerates. Culture-specific signs are also not accepted.
- The order of equal keys (same due date, lesson date, submission time or title) is not
  stated. The contracts fix only the sort order, because the database does not promise one.
- SubmissionEndpoints.SubmissionController.GetSubmissionsByStudent: does not state that a
  refused request performs no lookup. A function has no effects, so this holds only
  implicitly.
- Timestamps are integers taken from the `now` argument; `DateTime.UtcNow` is not read.

## Notes on the source

- The migration seeds roles 1 and 2 only (`HasData` in `ApplicationDbContext.cs:123`). On a
  migrated database the roles table is never empty, so `InitializeRoles` never adds the
  administrator role.
- The search controllers authorise the role "Admin", but the stored name of the administrator
  role is "Администратор".
- `ChangePassword` acts on `request.UserId`, whoever the caller is.
- `UpdateCourse` and `CreateCourse` always report zero students and zero lessons.
- Pair uniqueness of enrolments and of submissions is kept by the services' own checks. No
  database index enforces it.
- `GetMyAssignments` lists the courses of every enrolment, active or not.
- `RemoveBookFromCourse` reports a link to a course that no longer exists as "not linked",
  because only links to existing courses are loaded.
