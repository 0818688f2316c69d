/**
 * The submissions endpoint (Controllers/SubmissionController.cs): it forwards to the
 * submission service, passes the caller's own id as the student or the grading teacher, and lets a
 * caller list only their own submissions.
 */
module SubmissionEndpoints {
  import opened Wrappers
  import opened Entities
  import opened Responses
  import opened Store
  import opened Controllers
  import opened Submissions

  const AccessDenied: string := "Доступ запрещен"

  class SubmissionController {
    const service: SubmissionService
    /** The authenticated caller of the current request. */
    const user: Principal

    constructor (service: SubmissionService, user: Principal)
      ensures this.service == service && this.user == user
    {
      this.service := service;
      this.user := user;
    }

    /** `GET assignment/{assignmentId}`: the service's list, unchanged. */
    function GetSubmissionsByAssignment(assignmentId: int): (r: Envelope<seq<SubmissionResponse>>)
      reads service, service.context
      ensures r == service.GetSubmissionsByAssignment(assignmentId)
      ensures r.success && r.data.Some?
      ensures |r.data.value| ==
              |set k | k in service.context.submissions && service.context.submissions[k].assignmentId == assignmentId|
      ensures forall v :: v in r.data.value <==>
        exists s :: s in service.context.submissions.Values && s.assignmentId == assignmentId && v == View(s)
      ensures forall i, j | 0 <= i < j < |r.data.value| :: r.data.value[i].submittedAt <= r.data.value[j].submittedAt
    {
      service.GetSubmissionsByAssignment(assignmentId)
    }

    /**
     * `GET student/{studentId}`: refused unless the caller is that student; then the
     * service's list.
     */
    function GetSubmissionsByStudent(studentId: int): (r: Envelope<seq<SubmissionResponse>>)
      reads service, service.context
      ensures Consistent(r)
      ensures GetCurrentUserId(user) != studentId <==> !r.success
      ensures !r.success ==> r == Envelope(false, AccessDenied, None)
      ensures r.success ==> r == service.GetSubmissionsByStudent(studentId)
      ensures r.success ==>
        |r.data.value| == |set k | k in service.context.submissions && service.context.submissions[k].studentId == studentId|
      ensures r.success ==> forall v :: v in r.data.value <==>
        exists s :: s in service.context.submissions.Values && s.studentId == GetCurrentUserId(user) && v == View(s)
      ensures r.success ==> forall i, j | 0 <= i < j < |r.data.value| ::
        r.data.value[i].submittedAt >= r.data.value[j].submittedAt
    {
      if GetCurrentUserId(user) != studentId then Envelope(false, AccessDenied, None)
      else service.GetSubmissionsByStudent(studentId)
    }

    /** `GET {id}`: the service's lookup, unchanged. */
    function GetSubmissionById(id: int): (r: Envelope<SubmissionResponse>)
      reads service, service.context
      requires service.context.Valid()
      ensures r.success <==> id in service.context.submissions
      ensures r.success ==> r.data == Some(View(service.context.submissions[id]))
    {
      service.GetSubmissionById(id)
    }

    /**
     * `POST`: submits on behalf of the caller, so a new submission always belongs to the
     * caller, and a caller without a readable id claim cannot submit.
     */
    method CreateSubmission(request: CreateSubmissionRequest, now: Timestamp)
      returns (r: Envelope<SubmissionResponse>)
      requires service.context.Valid()
      modifies service.context`submissions, service.context`nextSubmissionId
      ensures service.context.Valid()
      ensures Consistent(r)
      ensures GetCurrentUserId(user) !in service.context.users ==> !r.success
      ensures !r.success ==>
        && service.context.submissions == old(service.context.submissions)
        && service.context.nextSubmissionId == old(service.context.nextSubmissionId)
      ensures r.success ==>
        (var id := old(service.context.nextSubmissionId);
         && id in service.context.submissions && r.data.value.id == id
         && service.context.submissions == old(service.context.submissions)[id := service.context.submissions[id]]
         && service.context.submissions[id].studentId == GetCurrentUserId(user)
         && service.context.submissions[id].assignmentId == request.assignmentId
         && r.data == Some(View(service.context.submissions[id])))
    {
      var studentId := GetCurrentUserId(user);
      r := service.CreateSubmission(request, studentId, now);
    }

    /** `POST {submissionId}/grade`: grades as the caller, whose id is recorded in `gradedBy`. */
    method GradeSubmission(submissionId: int, request: GradeSubmissionRequest, now: Timestamp)
      returns (r: Envelope<SubmissionResponse>)
      requires service.context.Valid()
      modifies service.context`submissions
      ensures service.context.Valid()
      ensures Consistent(r)
      ensures r.success <==> submissionId in old(service.context.submissions) && GetCurrentUserId(user) in service.context.users
      ensures !r.success ==> service.context.submissions == old(service.context.submissions)
      ensures r.success ==>
        (var g := Graded(old(service.context.submissions)[submissionId], request.score, request.feedback,
                         GetCurrentUserId(user), now);
         && service.context.submissions == old(service.context.submissions)[submissionId := g]
         && g.gradedBy == Some(GetCurrentUserId(user))
         && r.data == Some(View(g)))
    {
      var teacherId := GetCurrentUserId(user);
      r := service.GradeSubmission(submissionId, request, teacherId, now);
    }

    /** `DELETE {id}`: the service's delete, unchanged. */
    method DeleteSubmission(id: int) returns (r: Response)
      requires service.context.Valid()
      modifies service.context`submissions
      ensures service.context.Valid()
      ensures r.success <==> id in old(service.context.submissions)
      ensures service.context.submissions == old(service.context.submissions) - {id}
    {
      r := service.DeleteSubmission(id);
    }
  }

  /** The store never holds a user 0, so a caller whose id falls back to 0 (no id claim, an unreadable one, or "0") is nobody. */
  lemma AnonymousCallerIsNobody(db: SchoolDb, user: Principal)
    requires db.Valid()
    requires GetCurrentUserId(user) == 0
    ensures GetCurrentUserId(user) !in db.users
  {
  }
}
