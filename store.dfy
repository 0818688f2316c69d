/**
 * The database behind the services (Data/ApplicationDbContext.cs): one table per
 * entity, each a map from primary key to row, and one identity counter per table
 * whose rows get store-assigned keys. The roles table is only ever filled with
 * explicit keys, so it has no counter.
 */
module Store {
  import opened Entities
  import opened Query

  /** Each table row's `Id` is its key, positive and below the next identity value. */
  ghost predicate UsersKeyed(users: map<int, User>, next: int) {
    forall k | k in users :: users[k].id == k && 0 < k < next
  }

  ghost predicate RolesKeyed(roles: map<int, Role>) {
    forall k | k in roles :: roles[k].id == k && 0 < k
  }

  ghost predicate CoursesKeyed(courses: map<int, Course>, next: int) {
    forall k | k in courses :: courses[k].id == k && 0 < k < next
  }

  ghost predicate LessonsKeyed(lessons: map<int, Lesson>, next: int) {
    forall k | k in lessons :: lessons[k].id == k && 0 < k < next
  }

  ghost predicate AssignmentsKeyed(assignments: map<int, Assignment>, next: int) {
    forall k | k in assignments :: assignments[k].id == k && 0 < k < next
  }

  ghost predicate EnrollmentsKeyed(enrollments: map<int, Enrollment>, next: int) {
    forall k | k in enrollments :: enrollments[k].id == k && 0 < k < next
  }

  ghost predicate SubmissionsKeyed(submissions: map<int, Submission>, next: int) {
    forall k | k in submissions :: submissions[k].id == k && 0 < k < next
  }

  ghost predicate BooksKeyed(books: map<int, Book>, next: int) {
    forall k | k in books :: books[k].id == k && 0 < k < next
  }

  /** The unique index on `Users.Email`. */
  ghost predicate UniqueEmails(users: map<int, User>) {
    forall a, b | a in users && b in users && users[a].email == users[b].email :: a == b
  }

  /** The unique index on `Roles.Name`. */
  ghost predicate UniqueRoleNames(roles: map<int, Role>) {
    forall a, b | a in roles && b in roles && roles[a].name == roles[b].name :: a == b
  }

  /** Every user's `RoleId` names a stored role. */
  ghost predicate RolesResolve(users: map<int, User>, roles: map<int, Role>) {
    forall k | k in users :: users[k].roleId in roles
  }

  /** At most one enrolment per (course, student) pair; kept by the service, not by an index. */
  ghost predicate UniqueEnrollmentPairs(enrollments: map<int, Enrollment>) {
    forall a, b | a in enrollments && b in enrollments
      && enrollments[a].courseId == enrollments[b].courseId
      && enrollments[a].studentId == enrollments[b].studentId :: a == b
  }

  /** At most one submission per (assignment, student) pair; kept by the service, not by an index. */
  ghost predicate UniqueSubmissionPairs(submissions: map<int, Submission>) {
    forall a, b | a in submissions && b in submissions
      && submissions[a].assignmentId == submissions[b].assignmentId
      && submissions[a].studentId == submissions[b].studentId :: a == b
  }

  /** A book is linked to each course at most once (the key of the `BookCourses` join table). */
  ghost predicate LinksDistinct(books: map<int, Book>) {
    forall k | k in books :: NoDuplicates(books[k].courseIds)
  }

  /** Some enrolment links the student to the course. */
  predicate IsEnrolled(enrollments: map<int, Enrollment>, courseId: int, studentId: int) {
    exists k | k in enrollments :: enrollments[k].courseId == courseId && enrollments[k].studentId == studentId
  }

  class SchoolDb {
    var users: map<int, User>
    var roles: map<int, Role>
    var courses: map<int, Course>
    var lessons: map<int, Lesson>
    var assignments: map<int, Assignment>
    var enrollments: map<int, Enrollment>
    var submissions: map<int, Submission>
    var books: map<int, Book>

    // The next key each identity column hands out.
    var nextUserId: int
    var nextCourseId: int
    var nextLessonId: int
    var nextAssignmentId: int
    var nextEnrollmentId: int
    var nextSubmissionId: int
    var nextBookId: int

    ghost predicate Valid()
      reads this
    {
      && 0 < nextUserId && 0 < nextCourseId && 0 < nextLessonId && 0 < nextAssignmentId
      && 0 < nextEnrollmentId && 0 < nextSubmissionId && 0 < nextBookId
      && UsersKeyed(users, nextUserId)
      && RolesKeyed(roles)
      && CoursesKeyed(courses, nextCourseId)
      && LessonsKeyed(lessons, nextLessonId)
      && AssignmentsKeyed(assignments, nextAssignmentId)
      && EnrollmentsKeyed(enrollments, nextEnrollmentId)
      && SubmissionsKeyed(submissions, nextSubmissionId)
      && BooksKeyed(books, nextBookId)
      && UniqueEmails(users)
      && UniqueRoleNames(roles)
      && RolesResolve(users, roles)
      && UniqueEnrollmentPairs(enrollments)
      && UniqueSubmissionPairs(submissions)
      && LinksDistinct(books)
    }

    /** An empty database whose identity columns start at 1. */
    constructor ()
      ensures Valid()
      ensures users == map[] && roles == map[] && courses == map[] && lessons == map[]
      ensures assignments == map[] && enrollments == map[] && submissions == map[] && books == map[]
    {
      users, roles, courses, lessons := map[], map[], map[], map[];
      assignments, enrollments, submissions, books := map[], map[], map[], map[];
      nextUserId, nextCourseId, nextLessonId, nextAssignmentId := 1, 1, 1, 1;
      nextEnrollmentId, nextSubmissionId, nextBookId := 1, 1, 1;
    }
  }
}
