/**
 * Lessons (Services/Implementations/LessonService.cs): course-scoped CRUD and the lists
 * ordered by lesson date.
 */
module Lessons {
  import opened Wrappers
  import opened Entities
  import opened Responses
  import opened Query
  import opened Store

  /** Both `CreateLessonRequest` and `UpdateLessonRequest` carry these fields. */
  datatype LessonRequest = LessonRequest(
    title: string,
    description: Option<string>,
    courseId: int,
    lessonDate: Timestamp,
    durationMinutes: int,
    materials: Option<string>)

  /** `LessonResponse` without the course name read through the navigation property. */
  datatype LessonResponse = LessonResponse(
    id: int,
    title: string,
    description: Option<string>,
    courseId: int,
    lessonDate: Timestamp,
    durationMinutes: int,
    materials: Option<string>,
    createdAt: Timestamp,
    updatedAt: Timestamp)

  const LessonsLoaded: string := "Уроки успешно загружены"
  const CourseLessonsLoaded: string := "Уроки курса успешно загружены"
  const LessonNotFound: string := "Урок не найден"
  const LessonLoaded: string := "Урок успешно загружен"
  const CourseNotFound: string := "Курс не найден"
  const LessonCreated: string := "Урок успешно создан"
  const LessonUpdated: string := "Урок успешно обновлен"
  const LessonDeleted: string := "Урок успешно удален"

  function View(l: Lesson): LessonResponse {
    LessonResponse(l.id, l.title, l.description, l.courseId, l.lessonDate, l.durationMinutes, l.materials,
                   l.createdAt, l.updatedAt)
  }

  /** The projection of rows, position by position. */
  function Views(rows: seq<Lesson>): (r: seq<LessonResponse>)
    ensures |r| == |rows|
    ensures forall i | 0 <= i < |rows| :: r[i] == View(rows[i])
    ensures forall v :: v in r <==> exists l :: l in rows && v == View(l)
  {
    var r := Select(rows, View);
    forall v ensures v in r <==> exists l :: l in rows && v == View(l) {
      SelectMembers(rows, View, v);
    }
    r
  }

  /** `OrderBy(l => l.LessonDate)`. */
  function HeldEarlier(a: Lesson, b: Lesson): bool {
    a.lessonDate <= b.lessonDate
  }

  lemma LessonDateOrders()
    ensures TotalPreorder(HeldEarlier)
  {
  }

  function Anything(): Lesson -> bool {
    (l: Lesson) => true
  }

  function InCourse(courseId: int): Lesson -> bool {
    (l: Lesson) => l.courseId == courseId
  }

  lemma AllKeys(lessons: map<int, Lesson>)
    ensures KeysWhere(lessons, Anything()) == lessons.Keys
  {
  }

  lemma CourseKeys(lessons: map<int, Lesson>, courseId: int)
    ensures KeysWhere(lessons, InCourse(courseId)) == set k | k in lessons && lessons[k].courseId == courseId
  {
  }

  /** The stored lesson with every requested field written over it. */
  function Overwritten(l: Lesson, request: LessonRequest, now: Timestamp): (u: Lesson)
    ensures u.id == l.id && u.createdAt == l.createdAt && u.updatedAt == now
    ensures && u.title == request.title && u.description == request.description && u.courseId == request.courseId
            && u.lessonDate == request.lessonDate && u.durationMinutes == request.durationMinutes
            && u.materials == request.materials
  {
    l.(title := request.title, description := request.description, courseId := request.courseId,
       lessonDate := request.lessonDate, durationMinutes := request.durationMinutes,
       materials := request.materials, updatedAt := now)
  }

  class LessonService {
    const context: SchoolDb

    constructor (context: SchoolDb)
      ensures this.context == context
    {
      this.context := context;
    }

    /** `GetAllLessonsAsync`: every lesson, by lesson date. */
    function GetAllLessons(): (r: Envelope<seq<LessonResponse>>)
      reads context
      ensures r.success && r.message == LessonsLoaded && r.data.Some?
      ensures |r.data.value| == |context.lessons|
      ensures forall v :: v in r.data.value <==> exists l :: l in context.lessons.Values && v == View(l)
      ensures forall i, j | 0 <= i < j < |r.data.value| :: r.data.value[i].lessonDate <= r.data.value[j].lessonDate
    {
      LessonDateOrders();
      AllKeys(context.lessons);
      SuccessResponseOf(Views(WhereOrdered(context.lessons, Anything(), HeldEarlier)), LessonsLoaded)
    }

    /** `GetLessonsByCourseAsync`: that course's lessons, by lesson date. */
    function GetLessonsByCourse(courseId: int): (r: Envelope<seq<LessonResponse>>)
      reads context
      ensures r.success && r.message == CourseLessonsLoaded && r.data.Some?
      ensures |r.data.value| == |set k | k in context.lessons && context.lessons[k].courseId == courseId|
      ensures forall v :: v in r.data.value <==>
        exists l :: l in context.lessons.Values && l.courseId == courseId && v == View(l)
      ensures forall i, j | 0 <= i < j < |r.data.value| :: r.data.value[i].lessonDate <= r.data.value[j].lessonDate
    {
      LessonDateOrders();
      CourseKeys(context.lessons, courseId);
      SuccessResponseOf(Views(WhereOrdered(context.lessons, InCourse(courseId), HeldEarlier)), CourseLessonsLoaded)
    }

    /** `GetLessonByIdAsync`. */
    function GetLessonById(id: int): (r: Envelope<LessonResponse>)
      reads context
      requires context.Valid()
      ensures Consistent(r)
      ensures id !in context.lessons ==> r == ErrorResponseOf(LessonNotFound)
      ensures id in context.lessons ==>
        r == SuccessResponseOf(View(context.lessons[id]), LessonLoaded) && r.data.value.id == id
    {
      if id in context.lessons then SuccessResponseOf(View(context.lessons[id]), LessonLoaded)
      else ErrorResponseOf(LessonNotFound)
    }

    /** `CreateLessonAsync`: the course must exist; the lesson is stamped `now`. */
    method CreateLesson(request: LessonRequest, now: Timestamp) returns (r: Envelope<LessonResponse>)
      requires context.Valid()
      modifies context`lessons, context`nextLessonId
      ensures context.Valid()
      ensures Consistent(r)
      ensures request.courseId !in context.courses ==>
        && r == ErrorResponseOf(CourseNotFound)
        && context.lessons == old(context.lessons)
        && context.nextLessonId == old(context.nextLessonId)
      ensures request.courseId in context.courses ==>
        (var id := old(context.nextLessonId);
         var l := Lesson(id, request.title, request.description, request.courseId, request.lessonDate,
                         request.durationMinutes, request.materials, now, now);
         && id !in old(context.lessons)
         && context.lessons == old(context.lessons)[id := l]
         && context.nextLessonId == id + 1
         && r == SuccessResponseOf(View(l), LessonCreated))
    {
      if request.courseId !in context.courses {
        return ErrorResponseOf(CourseNotFound);
      }
      var lesson := Lesson(context.nextLessonId, request.title, request.description, request.courseId,
                           request.lessonDate, request.durationMinutes, request.materials, now, now);
      context.lessons := context.lessons[lesson.id := lesson];
      context.nextLessonId := context.nextLessonId + 1;
      r := SuccessResponseOf(View(lesson), LessonCreated);
    }

    /**
     * `UpdateLessonAsync`: fails first on a missing lesson, then on a missing target course;
     * otherwise the requested fields and the update time are overwritten.
     */
    method UpdateLesson(id: int, request: LessonRequest, now: Timestamp) returns (r: Envelope<LessonResponse>)
      requires context.Valid()
      modifies context`lessons
      ensures context.Valid()
      ensures Consistent(r)
      ensures id !in old(context.lessons) ==>
        r == ErrorResponseOf(LessonNotFound) && context.lessons == old(context.lessons)
      ensures id in old(context.lessons) && request.courseId !in context.courses ==>
        r == ErrorResponseOf(CourseNotFound) && context.lessons == old(context.lessons)
      ensures id in old(context.lessons) && request.courseId in context.courses ==>
        (var l := Overwritten(old(context.lessons)[id], request, now);
         && context.lessons == old(context.lessons)[id := l]
         && r == SuccessResponseOf(View(l), LessonUpdated))
    {
      if id !in context.lessons {
        return ErrorResponseOf(LessonNotFound);
      }
      if request.courseId !in context.courses {
        return ErrorResponseOf(CourseNotFound);
      }
      var lesson := context.lessons[id];
      lesson := lesson.(title := request.title, description := request.description, courseId := request.courseId);
      lesson := lesson.(lessonDate := request.lessonDate, durationMinutes := request.durationMinutes);
      lesson := lesson.(materials := request.materials, updatedAt := now);
      context.lessons := context.lessons[id := lesson];
      r := SuccessResponseOf(View(lesson), LessonUpdated);
    }

    /** `DeleteLessonAsync`: removes exactly that lesson. */
    method DeleteLesson(id: int) returns (r: Response)
      requires context.Valid()
      modifies context`lessons
      ensures context.Valid()
      ensures id !in old(context.lessons) ==>
        r == ErrorResponse(LessonNotFound) && context.lessons == old(context.lessons)
      ensures id in old(context.lessons) ==>
        r == SuccessResponse(LessonDeleted) && context.lessons == old(context.lessons) - {id}
    {
      if id !in context.lessons {
        return ErrorResponse(LessonNotFound);
      }
      context.lessons := context.lessons - {id};
      r := SuccessResponse(LessonDeleted);
    }
  }
}
