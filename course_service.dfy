/**
 * Courses and enrolments (Services/Implementations/CourseService.cs): course CRUD, the
 * per-course enrolment and lesson counts, and enrolling and unenrolling a student.
 * The service checks that keeps a (course, student) pair enrolled at most once is the
 * only thing that keeps it so: the schema has no unique index on the pair.
 */
module Courses {
  import opened Wrappers
  import opened Entities
  import opened Responses
  import opened Query
  import opened Store

  datatype CreateCourseRequest = CreateCourseRequest(name: string, description: Option<string>)

  datatype CourseResponse = CourseResponse(
    id: int,
    name: string,
    description: Option<string>,
    teacherName: string,
    studentsCount: int,
    lessonsCount: int,
    isActive: bool,
    createdAt: Timestamp,
    updatedAt: Timestamp)

  /** Every course response carries this teacher name; no teacher is stored. */
  const TeacherPlaceholder: string := "Преподаватель"

  const CoursesLoaded: string := "Курсы успешно загружены"
  const CourseNotFound: string := "Курс не найден"
  const CourseLoaded: string := "Курс успешно загружен"
  const CourseCreated: string := "Курс успешно создан"
  const CourseUpdated: string := "Курс успешно обновлен"
  const CourseDeleted: string := "Курс успешно удален"
  const StudentNotFound: string := "Студент не найден"
  const AlreadyEnrolled: string := "Студент уже записан на этот курс"
  const Enrolled: string := "Студент успешно записан на курс"
  const EnrollmentNotFound: string := "Запись на курс не найдена"
  const Unenrolled: string := "Студент успешно отписан от курса"

  /** The response for a course with the given counts: always active, always the placeholder teacher. */
  function Summary(c: Course, students: int, lessons: int): CourseResponse {
    CourseResponse(c.id, c.name, c.description, TeacherPlaceholder, students, lessons, true, c.createdAt, c.updatedAt)
  }

  function OfCourse(courseId: int): Enrollment -> bool {
    (e: Enrollment) => e.courseId == courseId
  }

  function InCourse(courseId: int): Lesson -> bool {
    (l: Lesson) => l.courseId == courseId
  }

  lemma EnrollmentKeys(enrollments: map<int, Enrollment>, courseId: int)
    ensures KeysWhere(enrollments, OfCourse(courseId)) ==
            set k | k in enrollments && enrollments[k].courseId == courseId
  {
  }

  lemma LessonKeys(lessons: map<int, Lesson>, courseId: int)
    ensures KeysWhere(lessons, InCourse(courseId)) == set k | k in lessons && lessons[k].courseId == courseId
  {
  }

  /** `Course.Enrollments.Count`: the enrolments that reference the course. */
  function EnrollmentCount(enrollments: map<int, Enrollment>, courseId: int): (n: nat)
    ensures n == |set k | k in enrollments && enrollments[k].courseId == courseId|
  {
    CountWhereRows(enrollments, OfCourse(courseId));
    EnrollmentKeys(enrollments, courseId);
    |Where(Rows(enrollments), OfCourse(courseId))|
  }

  /** `Course.Lessons.Count`: the lessons that reference the course. */
  function LessonCount(lessons: map<int, Lesson>, courseId: int): (n: nat)
    ensures n == |set k | k in lessons && lessons[k].courseId == courseId|
  {
    CountWhereRows(lessons, InCourse(courseId));
    LessonKeys(lessons, courseId);
    |Where(Rows(lessons), InCourse(courseId))|
  }

  class CourseService {
    const context: SchoolDb

    constructor (context: SchoolDb)
      ensures this.context == context
    {
      this.context := context;
    }

    /** The response of a stored course, with its live counts. */
    function Describe(c: Course): CourseResponse
      reads context
    {
      Summary(c, EnrollmentCount(context.enrollments, c.id), LessonCount(context.lessons, c.id))
    }

    /** `GetAllCoursesAsync`: one response per course, in key order. */
    function GetAllCourses(): (r: Envelope<seq<CourseResponse>>)
      reads context
      ensures r.success && r.message == CoursesLoaded && r.data.Some?
      ensures |r.data.value| == |context.courses|
      ensures forall v :: v in r.data.value <==> exists c :: c in context.courses.Values && v == Describe(c)
    {
      var enrollments, lessons := context.enrollments, context.lessons;
      var view := (c: Course) => Summary(c, EnrollmentCount(enrollments, c.id), LessonCount(lessons, c.id));
      var rows := Rows(context.courses);
      var views := Select(rows, view);
      forall v ensures v in views <==> exists c :: c in context.courses.Values && v == Describe(c) {
        SelectMembers(rows, view, v);
      }
      SuccessResponseOf(views, CoursesLoaded)
    }

    /**
     * `GetCourseByIdAsync`: the course with its number of enrolments and of lessons
     * (each count is the number of rows of that table that reference the course).
     */
    function GetCourseById(id: int): (r: Envelope<CourseResponse>)
      reads context
      requires context.Valid()
      ensures Consistent(r)
      ensures id !in context.courses ==> r == ErrorResponseOf(CourseNotFound)
      ensures id in context.courses ==>
        r == SuccessResponseOf(Summary(context.courses[id],
               EnrollmentCount(context.enrollments, id), LessonCount(context.lessons, id)), CourseLoaded)
    {
      if id !in context.courses then ErrorResponseOf(CourseNotFound)
      else SuccessResponseOf(Describe(context.courses[id]), CourseLoaded)
    }

    /** `CreateCourseAsync`: a new course stamped `now`, reported with no students and no lessons. */
    method CreateCourse(request: CreateCourseRequest, now: Timestamp) returns (r: Envelope<CourseResponse>)
      requires context.Valid()
      modifies context`courses, context`nextCourseId
      ensures context.Valid()
      ensures var id := old(context.nextCourseId);
        var c := Course(id, request.name, request.description, now, now);
        && id !in old(context.courses)
        && context.courses == old(context.courses)[id := c]
        && context.nextCourseId == id + 1
        && r == SuccessResponseOf(Summary(c, 0, 0), CourseCreated)
    {
      var course := Course(context.nextCourseId, request.name, request.description, now, now);
      context.courses := context.courses[course.id := course];
      context.nextCourseId := context.nextCourseId + 1;
      r := SuccessResponseOf(Summary(course, 0, 0), CourseCreated);
    }

    /**
     * `UpdateCourseAsync`: overwrites the name and description and restamps the course;
     * the response reports 0 students and 0 lessons whatever is stored.
     */
    method UpdateCourse(id: int, request: CreateCourseRequest, now: Timestamp) returns (r: Envelope<CourseResponse>)
      requires context.Valid()
      modifies context`courses
      ensures context.Valid()
      ensures id !in old(context.courses) ==>
        r == ErrorResponseOf(CourseNotFound) && context.courses == old(context.courses)
      ensures id in old(context.courses) ==>
        var c := old(context.courses)[id].(name := request.name, description := request.description, updatedAt := now);
        && context.courses == old(context.courses)[id := c]
        && r == SuccessResponseOf(Summary(c, 0, 0), CourseUpdated)
    {
      if id !in context.courses {
        return ErrorResponseOf(CourseNotFound);
      }
      var course := context.courses[id];
      course := course.(name := request.name, description := request.description, updatedAt := now);
      context.courses := context.courses[id := course];
      r := SuccessResponseOf(Summary(course, 0, 0), CourseUpdated);
    }

    /** `DeleteCourseAsync`: removes exactly that course. */
    method DeleteCourse(id: int) returns (r: Response)
      requires context.Valid()
      modifies context`courses
      ensures context.Valid()
      ensures id !in old(context.courses) ==>
        r == ErrorResponse(CourseNotFound) && context.courses == old(context.courses)
      ensures id in old(context.courses) ==>
        r == SuccessResponse(CourseDeleted) && context.courses == old(context.courses) - {id}
    {
      if id !in context.courses {
        return ErrorResponse(CourseNotFound);
      }
      context.courses := context.courses - {id};
      r := SuccessResponse(CourseDeleted);
    }

    /**
     * `EnrollStudentAsync`: the course must exist, the user must exist, and the pair must
     * not be enrolled yet; then one active enrolment stamped `now` is added.
     */
    method EnrollStudent(courseId: int, studentId: int, now: Timestamp) returns (r: Response)
      requires context.Valid()
      modifies context`enrollments, context`nextEnrollmentId
      ensures context.Valid()
      ensures !r.success ==>
        context.enrollments == old(context.enrollments) && context.nextEnrollmentId == old(context.nextEnrollmentId)
      ensures courseId !in context.courses ==> r == ErrorResponse(CourseNotFound)
      ensures courseId in context.courses && studentId !in context.users ==> r == ErrorResponse(StudentNotFound)
      ensures && courseId in context.courses && studentId in context.users
              && IsEnrolled(old(context.enrollments), courseId, studentId)
              ==> r == ErrorResponse(AlreadyEnrolled)
      ensures && courseId in context.courses && studentId in context.users
              && !IsEnrolled(old(context.enrollments), courseId, studentId)
              ==> (var id := old(context.nextEnrollmentId);
                   && id !in old(context.enrollments)
                   && context.enrollments == old(context.enrollments)[id := Enrollment(id, studentId, courseId, now, true)]
                   && context.nextEnrollmentId == id + 1
                   && r == SuccessResponse(Enrolled))
    {
      if courseId !in context.courses {
        return ErrorResponse(CourseNotFound);
      }
      if studentId !in context.users {
        return ErrorResponse(StudentNotFound);
      }
      if IsEnrolled(context.enrollments, courseId, studentId) {
        return ErrorResponse(AlreadyEnrolled);
      }
      var enrollment := Enrollment(context.nextEnrollmentId, studentId, courseId, now, true);
      context.enrollments := context.enrollments[enrollment.id := enrollment];
      context.nextEnrollmentId := context.nextEnrollmentId + 1;
      r := SuccessResponse(Enrolled);
    }

    /** `UnenrollStudentAsync`: removes the enrolment of the pair, the only one there is. */
    method UnenrollStudent(courseId: int, studentId: int) returns (r: Response)
      requires context.Valid()
      modifies context`enrollments
      ensures context.Valid()
      ensures !IsEnrolled(old(context.enrollments), courseId, studentId) ==>
        r == ErrorResponse(EnrollmentNotFound) && context.enrollments == old(context.enrollments)
      ensures forall k | k in old(context.enrollments)
                && old(context.enrollments)[k].courseId == courseId
                && old(context.enrollments)[k].studentId == studentId ::
        r == SuccessResponse(Unenrolled) && context.enrollments == old(context.enrollments) - {k}
    {
      if k :| k in context.enrollments && context.enrollments[k].courseId == courseId && context.enrollments[k].studentId == studentId {
        context.enrollments := context.enrollments - {k};
        r := SuccessResponse(Unenrolled);
      } else {
        r := ErrorResponse(EnrollmentNotFound);
      }
    }
  }
}
