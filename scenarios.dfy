/**
 * Sequences of calls across the services, stated as methods over one database: what a
 * client sees when it registers, logs in, changes its password, or submits and grades.
 */
module Scenarios {
  import opened Wrappers
  import opened Entities
  import opened Responses
  import opened Store
  import opened Auth
  import opened Controllers
  import opened Submissions
  import opened SubmissionEndpoints

  /** A freshly registered user can log in with the same email and password. */
  method RegisterThenLogin(auth: AuthService, request: RegisterRequest, now: Timestamp)
    returns (registered: Envelope<AuthResponse>, login: Envelope<AuthResponse>)
    requires auth.context.Valid()
    modifies auth.context`users, auth.context`nextUserId
    ensures auth.context.Valid()
    ensures registered.success ==> login == registered.(message := LoginSucceeded)
  {
    registered := auth.Register(request, now);
    login := auth.Login(LoginRequest(request.email, request.password));
    if registered.success {
      assert exists k | k in auth.context.roles :: auth.context.roles[k].name == request.role;
      var k :| k in auth.context.roles && auth.context.roles[k].name == request.role;
      var id := old(auth.context.nextUserId);
      var u := User(id, request.email, request.firstName, request.lastName,
                    auth.HashPassword(request.password), k, now);
      assert id in auth.context.users && auth.context.users[id] == u;
      auth.VerifyAcceptsOwnDigest(request.password);
      assert login == SuccessResponseOf(
        AuthResponse(auth.generateToken(u), Profile(u, auth.context.roles[k].name)), LoginSucceeded);
    }
  }

  /** Registering the same email twice: the second attempt is refused and stores nothing. */
  method RegisterTwice(auth: AuthService, first: RegisterRequest, second: RegisterRequest, now: Timestamp)
    returns (r1: Envelope<AuthResponse>, r2: Envelope<AuthResponse>)
    requires auth.context.Valid()
    requires first.email == second.email
    modifies auth.context`users, auth.context`nextUserId
    ensures auth.context.Valid()
    ensures r1.success ==> r2 == ErrorResponseOf(EmailTaken)
    ensures |auth.context.users| <= |old(auth.context.users)| + 1
  {
    r1 := auth.Register(first, now);
    ghost var between := auth.context.users;
    if r1.success {
      assert old(auth.context.nextUserId) in between;
    }
    r2 := auth.Register(second, now + 1);
    assert !r1.success ==> between == old(auth.context.users);
    assert r2.success ==> !r1.success && (var id := old(auth.context.nextUserId);
      auth.context.users == between[id := auth.context.users[id]] && id !in between);
  }

  /**
   * After a successful password change, with a collision-free digest, the old password
   * is refused and the new one accepted.
   */
  method ChangeThenLogin(auth: AuthService, email: string, oldPassword: string, newPassword: string, userId: int)
    returns (changed: Response, withOld: Envelope<AuthResponse>, withNew: Envelope<AuthResponse>)
    requires auth.context.Valid()
    requires Injective(auth.digest)
    requires oldPassword != newPassword
    requires userId in auth.context.users && auth.context.users[userId].email == email
    modifies auth.context`users
    ensures auth.context.Valid()
    ensures changed.success <==> auth.VerifyPassword(oldPassword, old(auth.context.users)[userId].passwordHash)
    ensures changed.success ==> withOld == ErrorResponseOf(WrongPassword) && withNew.success
  {
    changed := auth.ChangePassword(ChangePasswordRequest(userId, oldPassword, newPassword));
    assert userId in auth.context.users && auth.context.users[userId].email == email;
    withOld := auth.Login(LoginRequest(email, oldPassword));
    withNew := auth.Login(LoginRequest(email, newPassword));
    if changed.success {
      auth.VerifyRejectsOtherPasswords(newPassword, oldPassword);
      auth.VerifyAcceptsOwnDigest(newPassword);
    }
  }

  /**
   * A student's submission, graded by a teacher: the graded record is the same submission,
   * still the student's, with the teacher's score and the teacher recorded in `gradedBy`.
   */
  method SubmitThenGrade(student: SubmissionController, teacher: SubmissionController,
                         request: CreateSubmissionRequest, grade: GradeSubmissionRequest, now: Timestamp)
    returns (created: Envelope<SubmissionResponse>, graded: Envelope<SubmissionResponse>)
    requires student.service == teacher.service
    requires student.service.context.Valid()
    requires GetCurrentUserId(teacher.user) in student.service.context.users
    modifies student.service.context`submissions, student.service.context`nextSubmissionId
    ensures student.service.context.Valid()
    ensures Consistent(created) && Consistent(graded)
    ensures created.success ==> graded.success
    ensures created.success ==>
      && graded.data.value.id == created.data.value.id
      && graded.data.value.studentId == GetCurrentUserId(student.user)
      && graded.data.value.gradedBy == Some(GetCurrentUserId(teacher.user))
      && graded.data.value.score == Some(grade.score)
  {
    var db := student.service.context;
    ghost var teacherId := GetCurrentUserId(teacher.user);
    ghost var studentId := GetCurrentUserId(student.user);
    created := student.CreateSubmission(request, now);
    if created.success {
      var id := created.data.value.id;
      assert id in db.submissions && db.submissions[id].studentId == studentId;
      ghost var before := db.submissions[id];
      assert before.id == id;
      assert teacherId in db.users;
      graded := teacher.GradeSubmission(id, grade, now + 1);
      ghost var g := Graded(before, grade.score, grade.feedback, teacherId, now + 1);
      assert graded.data == Some(View(g));
    } else {
      graded := ErrorResponseOf(SubmissionNotFound);
    }
  }
}
