/**
 * Assignments (Services/Implementations/AssignmentService.cs): the course-scoped CRUD, the
 * lists ordered by due date and the "my assignments" join through the caller's enrolments.
 */
module Assignments {
  import opened Wrappers
  import opened Entities
  import opened Responses
  import opened Query
  import opened Store

  datatype CreateAssignmentRequest = CreateAssignmentRequest(
    title: string, description: Option<string>, courseId: int, dueDate: Timestamp, maxScore: int)

  /** `AssignmentResponse` without the course name read through the navigation property. */
  datatype AssignmentResponse = AssignmentResponse(
    id: int,
    title: string,
    description: Option<string>,
    courseId: int,
    dueDate: Timestamp,
    maxScore: int,
    createdAt: Timestamp,
    updatedAt: Timestamp)

  const AssignmentsLoaded: string := "Задания успешно загружены"
  const CourseAssignmentsLoaded: string := "Задания курса успешно загружены"
  const NoEnrollments: string := "У вас нет записей на курсы"
  const MyAssignmentsLoaded: string := "Ваши задания успешно загружены"
  const AssignmentNotFound: string := "Задание не найдено"
  const AssignmentLoaded: string := "Задание успешно загружено"
  const CourseNotFound: string := "Курс не найден"
  const AssignmentCreated: string := "Задание успешно создано"
  const AssignmentUpdated: string := "Задание успешно обновлено"
  const AssignmentDeleted: string := "Задание успешно удалено"

  function View(a: Assignment): AssignmentResponse {
    AssignmentResponse(a.id, a.title, a.description, a.courseId, a.dueDate, a.maxScore, a.createdAt, a.updatedAt)
  }

  /** The projection of rows, position by position. */
  function Views(rows: seq<Assignment>): (r: seq<AssignmentResponse>)
    ensures |r| == |rows|
    ensures forall i | 0 <= i < |rows| :: r[i] == View(rows[i])
    ensures forall v :: v in r <==> exists a :: a in rows && v == View(a)
  {
    var r := Select(rows, View);
    forall v ensures v in r <==> exists a :: a in rows && v == View(a) {
      SelectMembers(rows, View, v);
    }
    r
  }

  /** `OrderBy(a => a.DueDate)`. */
  function DueEarlier(a: Assignment, b: Assignment): bool {
    a.dueDate <= b.dueDate
  }

  lemma DueDateOrders()
    ensures TotalPreorder(DueEarlier)
  {
  }

  function Anything(): Assignment -> bool {
    (a: Assignment) => true
  }

  function InCourse(courseId: int): Assignment -> bool {
    (a: Assignment) => a.courseId == courseId
  }

  function InCourses(courseIds: seq<int>): Assignment -> bool {
    (a: Assignment) => a.courseId in courseIds
  }

  function OfStudent(userId: int): Enrollment -> bool {
    (e: Enrollment) => e.studentId == userId
  }

  function EnrolledCourse(e: Enrollment): int {
    e.courseId
  }

  lemma AllKeys(assignments: map<int, Assignment>)
    ensures KeysWhere(assignments, Anything()) == assignments.Keys
  {
  }

  lemma CourseKeys(assignments: map<int, Assignment>, courseId: int)
    ensures KeysWhere(assignments, InCourse(courseId)) ==
            set k | k in assignments && assignments[k].courseId == courseId
  {
  }

  /**
   * The ids of the courses the user is enrolled in, one per enrolment: a course id is
   * listed exactly when some enrolment links the user to it.
   */
  function EnrolledCourseIds(enrollments: map<int, Enrollment>, userId: int): (ids: seq<int>)
    ensures forall c :: c in ids <==> IsEnrolled(enrollments, c, userId)
    ensures ids == [] <==> forall k | k in enrollments :: enrollments[k].studentId != userId
  {
    EnrolledCourseIdsMeaning(enrollments, userId);
    Select(Where(Rows(enrollments), OfStudent(userId)), EnrolledCourse)
  }

  lemma EnrolledCourseIdsMeaning(enrollments: map<int, Enrollment>, userId: int)
    ensures var ids := Select(Where(Rows(enrollments), OfStudent(userId)), EnrolledCourse);
      && (forall c :: c in ids <==> IsEnrolled(enrollments, c, userId))
      && (ids == [] <==> forall k | k in enrollments :: enrollments[k].studentId != userId)
  {
    var mine := Where(Rows(enrollments), OfStudent(userId));
    var ids := Select(mine, EnrolledCourse);
    forall c ensures c in ids <==> IsEnrolled(enrollments, c, userId) {
      EnrolledCourseMember(enrollments, userId, c);
    }
    if ids == [] {
      forall k | k in enrollments ensures enrollments[k].studentId != userId {
        assert enrollments[k] in enrollments.Values;
        assert enrollments[k] !in mine;
      }
    } else {
      assert mine[0] in mine;
      assert mine[0] in enrollments.Values;
    }
  }

  lemma EnrolledCourseMember(enrollments: map<int, Enrollment>, userId: int, c: int)
    ensures c in Select(Where(Rows(enrollments), OfStudent(userId)), EnrolledCourse) <==>
            IsEnrolled(enrollments, c, userId)
  {
    var mine := Where(Rows(enrollments), OfStudent(userId));
    SelectMembers(mine, EnrolledCourse, c);
    if c in Select(mine, EnrolledCourse) {
      var e :| e in mine && c == EnrolledCourse(e);
      assert e in enrollments.Values;
      var k :| k in enrollments && enrollments[k] == e;
      assert enrollments[k].courseId == c && enrollments[k].studentId == userId;
    }
    if IsEnrolled(enrollments, c, userId) {
      var k :| k in enrollments && enrollments[k].courseId == c && enrollments[k].studentId == userId;
      assert enrollments[k] in enrollments.Values;
      assert enrollments[k] in mine;
    }
  }

  lemma MyKeys(assignments: map<int, Assignment>, enrollments: map<int, Enrollment>, userId: int)
    ensures KeysWhere(assignments, InCourses(EnrolledCourseIds(enrollments, userId))) ==
            set k | k in assignments && IsEnrolled(enrollments, assignments[k].courseId, userId)
  {
  }

  class AssignmentService {
    const context: SchoolDb

    constructor (context: SchoolDb)
      ensures this.context == context
    {
      this.context := context;
    }

    /** `GetAllAssignmentsAsync`: every assignment, by due date. */
    function GetAllAssignments(): (r: Envelope<seq<AssignmentResponse>>)
      reads context
      ensures r.success && r.message == AssignmentsLoaded && r.data.Some?
      ensures |r.data.value| == |context.assignments|
      ensures forall v :: v in r.data.value <==> exists a :: a in context.assignments.Values && v == View(a)
      ensures forall i, j | 0 <= i < j < |r.data.value| :: r.data.value[i].dueDate <= r.data.value[j].dueDate
    {
      DueDateOrders();
      AllKeys(context.assignments);
      SuccessResponseOf(Views(WhereOrdered(context.assignments, Anything(), DueEarlier)), AssignmentsLoaded)
    }

    /** `GetAssignmentsByCourseAsync`: that course's assignments, by due date. */
    function GetAssignmentsByCourse(courseId: int): (r: Envelope<seq<AssignmentResponse>>)
      reads context
      ensures r.success && r.message == CourseAssignmentsLoaded && r.data.Some?
      ensures |r.data.value| ==
              |set k | k in context.assignments && context.assignments[k].courseId == courseId|
      ensures forall v :: v in r.data.value <==>
        exists a :: a in context.assignments.Values && a.courseId == courseId && v == View(a)
      ensures forall i, j | 0 <= i < j < |r.data.value| :: r.data.value[i].dueDate <= r.data.value[j].dueDate
    {
      DueDateOrders();
      CourseKeys(context.assignments, courseId);
      SuccessResponseOf(Views(WhereOrdered(context.assignments, InCourse(courseId), DueEarlier)),
                        CourseAssignmentsLoaded)
    }

    /**
     * `GetMyAssignmentsAsync`: with no enrolment at all, an empty success with its own
     * message; otherwise the assignments of every course the user is enrolled in (active
     * or not), by due date.
     */
    function GetMyAssignments(userId: int): (r: Envelope<seq<AssignmentResponse>>)
      reads context
      ensures r.success && r.data.Some?
      ensures (forall k | k in context.enrollments :: context.enrollments[k].studentId != userId) ==>
        r == SuccessResponseOf([], NoEnrollments)
      ensures (exists k | k in context.enrollments :: context.enrollments[k].studentId == userId) ==>
        && r.message == MyAssignmentsLoaded
        && |r.data.value| == |set k | k in context.assignments
                                     && IsEnrolled(context.enrollments, context.assignments[k].courseId, userId)|
        && (forall v :: v in r.data.value <==>
              exists a :: a in context.assignments.Values && IsEnrolled(context.enrollments, a.courseId, userId)
                          && v == View(a))
        && (forall i, j | 0 <= i < j < |r.data.value| :: r.data.value[i].dueDate <= r.data.value[j].dueDate)
    {
      var userCourses := EnrolledCourseIds(context.enrollments, userId);
      if userCourses == [] then SuccessResponseOf([], NoEnrollments)
      else
        DueDateOrders();
        MyKeys(context.assignments, context.enrollments, userId);
        SuccessResponseOf(Views(WhereOrdered(context.assignments, InCourses(userCourses), DueEarlier)),
                          MyAssignmentsLoaded)
    }

    /** `GetAssignmentByIdAsync`. */
    function GetAssignmentById(id: int): (r: Envelope<AssignmentResponse>)
      reads context
      requires context.Valid()
      ensures Consistent(r)
      ensures id !in context.assignments ==> r == ErrorResponseOf(AssignmentNotFound)
      ensures id in context.assignments ==>
        r == SuccessResponseOf(View(context.assignments[id]), AssignmentLoaded) && r.data.value.id == id
    {
      if id in context.assignments then SuccessResponseOf(View(context.assignments[id]), AssignmentLoaded)
      else ErrorResponseOf(AssignmentNotFound)
    }

    /** `CreateAssignmentAsync`: the course must exist; the assignment is stamped `now`. */
    method CreateAssignment(request: CreateAssignmentRequest, now: Timestamp) returns (r: Envelope<AssignmentResponse>)
      requires context.Valid()
      modifies context`assignments, context`nextAssignmentId
      ensures context.Valid()
      ensures Consistent(r)
      ensures request.courseId !in context.courses ==>
        && r == ErrorResponseOf(CourseNotFound)
        && context.assignments == old(context.assignments)
        && context.nextAssignmentId == old(context.nextAssignmentId)
      ensures request.courseId in context.courses ==>
        (var id := old(context.nextAssignmentId);
         var a := Assignment(id, request.title, request.description, request.courseId, request.dueDate,
                             request.maxScore, now, now);
         && id !in old(context.assignments)
         && context.assignments == old(context.assignments)[id := a]
         && context.nextAssignmentId == id + 1
         && r == SuccessResponseOf(View(a), AssignmentCreated))
    {
      if request.courseId !in context.courses {
        return ErrorResponseOf(CourseNotFound);
      }
      var assignment := Assignment(context.nextAssignmentId, request.title, request.description, request.courseId,
                                   request.dueDate, request.maxScore, now, now);
      context.assignments := context.assignments[assignment.id := assignment];
      context.nextAssignmentId := context.nextAssignmentId + 1;
      r := SuccessResponseOf(View(assignment), AssignmentCreated);
    }

    /**
     * `UpdateAssignmentAsync`: fails first on a missing assignment, then on a missing target
     * course; otherwise every requested field and the update time are overwritten.
     */
    method UpdateAssignment(id: int, request: CreateAssignmentRequest, now: Timestamp)
      returns (r: Envelope<AssignmentResponse>)
      requires context.Valid()
      modifies context`assignments
      ensures context.Valid()
      ensures Consistent(r)
      ensures id !in old(context.assignments) ==>
        r == ErrorResponseOf(AssignmentNotFound) && context.assignments == old(context.assignments)
      ensures id in old(context.assignments) && request.courseId !in context.courses ==>
        r == ErrorResponseOf(CourseNotFound) && context.assignments == old(context.assignments)
      ensures id in old(context.assignments) && request.courseId in context.courses ==>
        (var a := old(context.assignments)[id].(title := request.title, description := request.description,
                    courseId := request.courseId, dueDate := request.dueDate, maxScore := request.maxScore,
                    updatedAt := now);
         && context.assignments == old(context.assignments)[id := a]
         && a.id == id && a.createdAt == old(context.assignments)[id].createdAt
         && r == SuccessResponseOf(View(a), AssignmentUpdated))
    {
      if id !in context.assignments {
        return ErrorResponseOf(AssignmentNotFound);
      }
      if request.courseId !in context.courses {
        return ErrorResponseOf(CourseNotFound);
      }
      var assignment := context.assignments[id];
      assignment := assignment.(title := request.title, description := request.description);
      assignment := assignment.(courseId := request.courseId, dueDate := request.dueDate);
      assignment := assignment.(maxScore := request.maxScore, updatedAt := now);
      context.assignments := context.assignments[id := assignment];
      r := SuccessResponseOf(View(assignment), AssignmentUpdated);
    }

    /** `DeleteAssignmentAsync`: removes exactly that assignment. */
    method DeleteAssignment(id: int) returns (r: Response)
      requires context.Valid()
      modifies context`assignments
      ensures context.Valid()
      ensures id !in old(context.assignments) ==>
        r == ErrorResponse(AssignmentNotFound) && context.assignments == old(context.assignments)
      ensures id in old(context.assignments) ==>
        r == SuccessResponse(AssignmentDeleted) && context.assignments == old(context.assignments) - {id}
    {
      if id !in context.assignments {
        return ErrorResponse(AssignmentNotFound);
      }
      context.assignments := context.assignments - {id};
      r := SuccessResponse(AssignmentDeleted);
    }
  }
}
