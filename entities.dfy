/**
 * The rows of the school database (the classes under Models/Entities) and the role names
 * (Models/Common/Roles.cs). A `DateTime` is an integer timestamp taken from the
 * clock argument of the operation that writes it; a nullable column is an `Option`.
 */
module Entities {
  import opened Wrappers

  type Timestamp = int

  const StudentRole: string := "Студент"
  const TeacherRole: string := "Преподаватель"
  const AdminRole: string := "Администратор"
  const AllRoles: seq<string> := [StudentRole, TeacherRole, AdminRole]

  datatype Role = Role(id: int, name: string, description: Option<string>)

  datatype User = User(
    id: int,
    email: string,
    firstName: string,
    lastName: string,
    passwordHash: string,
    roleId: int,
    createdAt: Timestamp)

  datatype Course = Course(
    id: int,
    name: string,
    description: Option<string>,
    createdAt: Timestamp,
    updatedAt: Timestamp)

  datatype Lesson = Lesson(
    id: int,
    title: string,
    description: Option<string>,
    courseId: int,
    lessonDate: Timestamp,
    durationMinutes: int,
    materials: Option<string>,
    createdAt: Timestamp,
    updatedAt: Timestamp)

  datatype Assignment = Assignment(
    id: int,
    title: string,
    description: Option<string>,
    courseId: int,
    dueDate: Timestamp,
    maxScore: int,
    createdAt: Timestamp,
    updatedAt: Timestamp)

  datatype Enrollment = Enrollment(
    id: int,
    studentId: int,
    courseId: int,
    enrolledAt: Timestamp,
    isActive: bool)

  datatype Submission = Submission(
    id: int,
    assignmentId: int,
    studentId: int,
    content: Option<string>,
    fileUrl: Option<string>,
    submittedAt: Timestamp,
    score: Option<int>,
    feedback: Option<string>,
    gradedAt: Option<Timestamp>,
    gradedBy: Option<int>)
  {
    /** `SubmissionResponse.IsGraded`: a submission counts as graded once it has a score. */
    predicate IsGraded() {
      score.Some?
    }
  }

  /** A book with the ids of the courses it is linked to (the `BookCourses` join table), in load order. */
  datatype Book = Book(
    id: int,
    title: string,
    author: string,
    description: Option<string>,
    isbn: Option<string>,
    publicationYear: int,
    publisher: Option<string>,
    pages: int,
    language: Option<string>,
    createdAt: Timestamp,
    updatedAt: Timestamp,
    courseIds: seq<int>)

  /** The default of `Book.Language`. */
  const DefaultBookLanguage: string := "Русский"

  /** The three role names are pairwise distinct. */
  lemma RoleNamesDistinct()
    ensures StudentRole != TeacherRole && TeacherRole != AdminRole && StudentRole != AdminRole
  {
    assert StudentRole[0] != TeacherRole[0];
    assert TeacherRole[0] != AdminRole[0];
    assert StudentRole[0] != AdminRole[0];
  }
}
