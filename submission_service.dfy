/**
 * Assignment submissions (Services/Implementations/SubmissionService.cs): the per-assignment
 * and per-student lists, submitting (once per assignment and student) and grading, which
 * overwrites the four grading fields of one submission.
 */
module Submissions {
  import opened Wrappers
  import opened Entities
  import opened Responses
  import opened Query
  import opened Store

  datatype CreateSubmissionRequest = CreateSubmissionRequest(
    assignmentId: int, content: Option<string>, fileUrl: Option<string>)
  datatype GradeSubmissionRequest = GradeSubmissionRequest(score: int, feedback: Option<string>)

  /** `SubmissionResponse` without the names read through navigation properties. */
  datatype SubmissionResponse = SubmissionResponse(
    id: int,
    assignmentId: int,
    studentId: int,
    content: Option<string>,
    fileUrl: Option<string>,
    submittedAt: Timestamp,
    score: Option<int>,
    feedback: Option<string>,
    gradedAt: Option<Timestamp>,
    gradedBy: Option<int>)
  {
    predicate IsGraded() {
      score.Some?
    }
  }

  const SubmissionsLoaded: string := "Отправки успешно загружены"
  const StudentSubmissionsLoaded: string := "Отправки студента успешно загружены"
  const SubmissionNotFound: string := "Отправка не найдена"
  const SubmissionLoaded: string := "Отправка успешно загружена"
  const AssignmentNotFound: string := "Задание не найдено"
  const StudentNotFound: string := "Студент не найден"
  const AlreadySubmitted: string := "Вы уже отправили это задание"
  const SubmissionCreated: string := "Задание успешно отправлено"
  const TeacherNotFound: string := "Преподаватель не найден"
  const SubmissionGraded: string := "Задание успешно оценено"
  const SubmissionDeleted: string := "Отправка успешно удалена"

  function View(s: Submission): SubmissionResponse {
    SubmissionResponse(s.id, s.assignmentId, s.studentId, s.content, s.fileUrl, s.submittedAt,
                       s.score, s.feedback, s.gradedAt, s.gradedBy)
  }

  /** Some submission of the student answers the assignment. */
  predicate HasSubmitted(submissions: map<int, Submission>, assignmentId: int, studentId: int) {
    exists k | k in submissions ::
      submissions[k].assignmentId == assignmentId && submissions[k].studentId == studentId
  }

  /**
   * The grading transition (`GradeSubmissionAsync`, the four assignments before saving):
   * score, feedback, time and grading teacher are overwritten; nothing else changes.
   */
  function Graded(s: Submission, score: int, feedback: Option<string>, teacherId: int, now: Timestamp): (g: Submission)
    ensures g.IsGraded() && g.score == Some(score) && g.feedback == feedback
    ensures g.gradedAt == Some(now) && g.gradedBy == Some(teacherId)
    ensures && g.id == s.id && g.assignmentId == s.assignmentId && g.studentId == s.studentId
            && g.content == s.content && g.fileUrl == s.fileUrl && g.submittedAt == s.submittedAt
  {
    s.(score := Some(score), feedback := feedback, gradedAt := Some(now), gradedBy := Some(teacherId))
  }

  /** Regrading forgets the earlier grade entirely. */
  lemma RegradeOverwrites(s: Submission, score: int, feedback: Option<string>, teacherId: int, now: Timestamp,
                          score': int, feedback': Option<string>, teacherId': int, now': Timestamp)
    ensures Graded(Graded(s, score, feedback, teacherId, now), score', feedback', teacherId', now') ==
            Graded(s, score', feedback', teacherId', now')
  {
  }

  function ForAssignment(assignmentId: int): Submission -> bool {
    (s: Submission) => s.assignmentId == assignmentId
  }

  function ByStudent(studentId: int): Submission -> bool {
    (s: Submission) => s.studentId == studentId
  }

  /** `OrderBy(s => s.SubmittedAt)`. */
  function SubmittedEarlier(a: Submission, b: Submission): bool {
    a.submittedAt <= b.submittedAt
  }

  /** `OrderByDescending(s => s.SubmittedAt)`. */
  function SubmittedLater(a: Submission, b: Submission): bool {
    a.submittedAt >= b.submittedAt
  }

  lemma SubmissionOrders()
    ensures TotalPreorder(SubmittedEarlier) && TotalPreorder(SubmittedLater)
  {
  }

  lemma AssignmentKeys(submissions: map<int, Submission>, assignmentId: int)
    ensures KeysWhere(submissions, ForAssignment(assignmentId)) ==
            set k | k in submissions && submissions[k].assignmentId == assignmentId
  {
  }

  lemma StudentKeys(submissions: map<int, Submission>, studentId: int)
    ensures KeysWhere(submissions, ByStudent(studentId)) ==
            set k | k in submissions && submissions[k].studentId == studentId
  {
  }

  /** The projection of rows, keeping their number and their order's key. */
  function Views(rows: seq<Submission>): (r: seq<SubmissionResponse>)
    ensures |r| == |rows|
    ensures forall i | 0 <= i < |rows| :: r[i] == View(rows[i])
    ensures forall v :: v in r <==> exists s :: s in rows && v == View(s)
  {
    var r := Select(rows, View);
    forall v ensures v in r <==> exists s :: s in rows && v == View(s) {
      SelectMembers(rows, View, v);
    }
    r
  }

  class SubmissionService {
    const context: SchoolDb

    constructor (context: SchoolDb)
      ensures this.context == context
    {
      this.context := context;
    }

    /** `GetSubmissionsByAssignmentAsync`: that assignment's submissions, oldest first. */
    function GetSubmissionsByAssignment(assignmentId: int): (r: Envelope<seq<SubmissionResponse>>)
      reads context
      ensures r.success && r.message == SubmissionsLoaded && r.data.Some?
      ensures |r.data.value| ==
              |set k | k in context.submissions && context.submissions[k].assignmentId == assignmentId|
      ensures forall v :: v in r.data.value <==>
        exists s :: s in context.submissions.Values && s.assignmentId == assignmentId && v == View(s)
      ensures forall i, j | 0 <= i < j < |r.data.value| :: r.data.value[i].submittedAt <= r.data.value[j].submittedAt
    {
      SubmissionOrders();
      AssignmentKeys(context.submissions, assignmentId);
      var views := Views(WhereOrdered(context.submissions, ForAssignment(assignmentId), SubmittedEarlier));
      SuccessResponseOf(views, SubmissionsLoaded)
    }

    /** `GetSubmissionsByStudentAsync`: that student's submissions, newest first. */
    function GetSubmissionsByStudent(studentId: int): (r: Envelope<seq<SubmissionResponse>>)
      reads context
      ensures r.success && r.message == StudentSubmissionsLoaded && r.data.Some?
      ensures |r.data.value| ==
              |set k | k in context.submissions && context.submissions[k].studentId == studentId|
      ensures forall v :: v in r.data.value <==>
        exists s :: s in context.submissions.Values && s.studentId == studentId && v == View(s)
      ensures forall i, j | 0 <= i < j < |r.data.value| :: r.data.value[i].submittedAt >= r.data.value[j].submittedAt
    {
      SubmissionOrders();
      StudentKeys(context.submissions, studentId);
      var views := Views(WhereOrdered(context.submissions, ByStudent(studentId), SubmittedLater));
      SuccessResponseOf(views, StudentSubmissionsLoaded)
    }

    /** `GetSubmissionByIdAsync`. */
    function GetSubmissionById(id: int): (r: Envelope<SubmissionResponse>)
      reads context
      requires context.Valid()
      ensures Consistent(r)
      ensures id !in context.submissions ==> r == ErrorResponseOf(SubmissionNotFound)
      ensures id in context.submissions ==>
        r == SuccessResponseOf(View(context.submissions[id]), SubmissionLoaded) && r.data.value.id == id
    {
      if id in context.submissions then SuccessResponseOf(View(context.submissions[id]), SubmissionLoaded)
      else ErrorResponseOf(SubmissionNotFound)
    }

    /**
     * `CreateSubmissionAsync`: the assignment and the student must exist and the student
     * must not have submitted it yet; the new submission is stamped `now` and ungraded.
     */
    method CreateSubmission(request: CreateSubmissionRequest, studentId: int, now: Timestamp)
      returns (r: Envelope<SubmissionResponse>)
      requires context.Valid()
      modifies context`submissions, context`nextSubmissionId
      ensures context.Valid()
      ensures Consistent(r)
      ensures !r.success ==>
        context.submissions == old(context.submissions) && context.nextSubmissionId == old(context.nextSubmissionId)
      ensures request.assignmentId !in context.assignments ==> r == ErrorResponseOf(AssignmentNotFound)
      ensures request.assignmentId in context.assignments && studentId !in context.users ==>
        r == ErrorResponseOf(StudentNotFound)
      ensures && request.assignmentId in context.assignments && studentId in context.users
              && HasSubmitted(old(context.submissions), request.assignmentId, studentId)
              ==> r == ErrorResponseOf(AlreadySubmitted)
      ensures && request.assignmentId in context.assignments && studentId in context.users
              && !HasSubmitted(old(context.submissions), request.assignmentId, studentId)
              ==> (var id := old(context.nextSubmissionId);
                   var s := Submission(id, request.assignmentId, studentId, request.content, request.fileUrl,
                                       now, None, None, None, None);
                   && id !in old(context.submissions)
                   && context.submissions == old(context.submissions)[id := s]
                   && context.nextSubmissionId == id + 1
                   && r == SuccessResponseOf(View(s), SubmissionCreated))
      ensures r.success ==> !r.data.value.IsGraded()
    {
      if request.assignmentId !in context.assignments {
        return ErrorResponseOf(AssignmentNotFound);
      }
      if studentId !in context.users {
        return ErrorResponseOf(StudentNotFound);
      }
      if HasSubmitted(context.submissions, request.assignmentId, studentId) {
        return ErrorResponseOf(AlreadySubmitted);
      }
      var submission := Submission(context.nextSubmissionId, request.assignmentId, studentId,
                                   request.content, request.fileUrl, now, None, None, None, None);
      context.submissions := context.submissions[submission.id := submission];
      context.nextSubmissionId := context.nextSubmissionId + 1;
      r := SuccessResponseOf(View(submission), SubmissionCreated);
    }

    /** `GradeSubmissionAsync`: the submission and the grading user must exist. */
    method GradeSubmission(submissionId: int, request: GradeSubmissionRequest, teacherId: int, now: Timestamp)
      returns (r: Envelope<SubmissionResponse>)
      requires context.Valid()
      modifies context`submissions
      ensures context.Valid()
      ensures Consistent(r)
      ensures submissionId !in old(context.submissions) ==>
        r == ErrorResponseOf(SubmissionNotFound) && context.submissions == old(context.submissions)
      ensures submissionId in old(context.submissions) && teacherId !in context.users ==>
        r == ErrorResponseOf(TeacherNotFound) && context.submissions == old(context.submissions)
      ensures submissionId in old(context.submissions) && teacherId in context.users ==>
        (var g := Graded(old(context.submissions)[submissionId], request.score, request.feedback, teacherId, now);
         && context.submissions == old(context.submissions)[submissionId := g]
         && r == SuccessResponseOf(View(g), SubmissionGraded))
    {
      if submissionId !in context.submissions {
        return ErrorResponseOf(SubmissionNotFound);
      }
      if teacherId !in context.users {
        return ErrorResponseOf(TeacherNotFound);
      }
      var submission := context.submissions[submissionId];
      submission := submission.(score := Some(request.score));
      submission := submission.(feedback := request.feedback);
      submission := submission.(gradedAt := Some(now));
      submission := submission.(gradedBy := Some(teacherId));
      context.submissions := context.submissions[submissionId := submission];
      r := SuccessResponseOf(View(submission), SubmissionGraded);
    }

    /** `DeleteSubmissionAsync`: removes exactly that submission. */
    method DeleteSubmission(id: int) returns (r: Response)
      requires context.Valid()
      modifies context`submissions
      ensures context.Valid()
      ensures id !in old(context.submissions) ==>
        r == ErrorResponse(SubmissionNotFound) && context.submissions == old(context.submissions)
      ensures id in old(context.submissions) ==>
        r == SuccessResponse(SubmissionDeleted) && context.submissions == old(context.submissions) - {id}
    {
      if id !in context.submissions {
        return ErrorResponse(SubmissionNotFound);
      }
      context.submissions := context.submissions - {id};
      r := SuccessResponse(SubmissionDeleted);
    }
  }
}
