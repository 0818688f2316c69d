/**
 * Login, registration and password change over the users and roles tables
 * (Services/Implementations/AuthService.cs). The password digest (SHA-256 of the
 * UTF-8 bytes, then Base64) and the token issuer (`IJwtService.GenerateToken`) are
 * injected functions: the model relies only on their being functions, and, where
 * stated, on the digest being injective.
 */
module Auth {
  import opened Wrappers
  import opened Entities
  import opened Responses
  import opened Query
  import opened Store

  datatype LoginRequest = LoginRequest(email: string, password: string)
  datatype RegisterRequest = RegisterRequest(
    email: string, password: string, firstName: string, lastName: string, role: string)
  datatype ChangePasswordRequest = ChangePasswordRequest(
    userId: int, currentPassword: string, newPassword: string)

  /** The public profile returned with a token; it never carries the digest. */
  datatype UserProfile = UserProfile(id: int, email: string, firstName: string, lastName: string, role: string)
  datatype AuthResponse = AuthResponse(token: string, user: UserProfile)
  datatype RoleResponse = RoleResponse(id: int, name: string)

  const UserNotFound: string := "Пользователь не найден"
  const WrongPassword: string := "Неверный пароль"
  const LoginSucceeded: string := "Вход выполнен успешно"
  const EmailTaken: string := "Пользователь с таким email уже существует"
  const RoleNotFound: string := "Указанная роль не найдена"
  const Registered: string := "Регистрация выполнена успешно"
  const WrongCurrentPassword: string := "Неверный текущий пароль"
  const PasswordChanged: string := "Пароль успешно изменен"
  const RolesLoaded: string := "Роли успешно загружены"

  ghost predicate Injective(f: string -> string) {
    forall p, q :: f(p) == f(q) ==> p == q
  }

  function Profile(u: User, roleName: string): UserProfile {
    UserProfile(u.id, u.email, u.firstName, u.lastName, roleName)
  }

  function RoleView(role: Role): RoleResponse {
    RoleResponse(role.id, role.name)
  }

  lemma UserIdsAreKeys(users: map<int, User>)
    requires forall k | k in users :: users[k].id == k
    ensures forall u | u in users.Values :: u.id in users
  {
    forall u | u in users.Values ensures u.id in users {
      if u.id !in users {
        assert forall k | k in users :: users[k] != u;
        assert false;
      }
    }
  }

  class AuthService {
    const context: SchoolDb
    /** SHA-256 over the UTF-8 bytes of the password, then Base64. */
    const digest: string -> string
    /** `IJwtService.GenerateToken`. */
    const generateToken: User -> string

    constructor (context: SchoolDb, digest: string -> string, generateToken: User -> string)
      ensures this.context == context && this.digest == digest && this.generateToken == generateToken
    {
      this.context := context;
      this.digest := digest;
      this.generateToken := generateToken;
    }

    /** Unsalted and deterministic: equal passwords get equal digests. */
    function HashPassword(password: string): string {
      digest(password)
    }

    /** Re-hashes the candidate and compares digests. */
    function VerifyPassword(password: string, hash: string): bool {
      HashPassword(password) == hash
    }

    /** A password always verifies against its own digest. */
    lemma VerifyAcceptsOwnDigest(password: string)
      ensures VerifyPassword(password, HashPassword(password))
    {
    }

    /** With a collision-free digest, no other password verifies against it. */
    lemma VerifyRejectsOtherPasswords(password: string, other: string)
      requires Injective(digest)
      ensures VerifyPassword(other, HashPassword(password)) <==> other == password
    {
    }

    /** `LoginAsync`: look the user up by exact email, check the password, issue a token. */
    method Login(request: LoginRequest) returns (r: Envelope<AuthResponse>)
      requires context.Valid()
      ensures Consistent(r)
      ensures (forall k | k in context.users :: context.users[k].email != request.email) ==>
        r == ErrorResponseOf(UserNotFound)
      ensures forall k | k in context.users && context.users[k].email == request.email ::
        var u := context.users[k];
        r == if VerifyPassword(request.password, u.passwordHash)
             then SuccessResponseOf(
               AuthResponse(generateToken(u), Profile(u, context.roles[u.roleId].name)), LoginSucceeded)
             else ErrorResponseOf(WrongPassword)
    {
      if k :| k in context.users && context.users[k].email == request.email {
        var user := context.users[k];
        if !VerifyPassword(request.password, user.passwordHash) {
          return ErrorResponseOf(WrongPassword);
        }
        var token := generateToken(user);
        var profile := Profile(user, context.roles[user.roleId].name);
        r := SuccessResponseOf(AuthResponse(token, profile), LoginSucceeded);
      } else {
        r := ErrorResponseOf(UserNotFound);
      }
    }

    /**
     * `RegisterAsync`: refuse a taken email, resolve the role by exact name, store the
     * new user with the digest of the password and issue a token.
     */
    method Register(request: RegisterRequest, now: Timestamp) returns (r: Envelope<AuthResponse>)
      requires context.Valid()
      modifies context`users, context`nextUserId
      ensures context.Valid()
      ensures Consistent(r)
      ensures !r.success ==>
        context.users == old(context.users) && context.nextUserId == old(context.nextUserId)
      ensures (exists k | k in old(context.users) :: old(context.users)[k].email == request.email) ==>
        r == ErrorResponseOf(EmailTaken)
      ensures && (forall k | k in old(context.users) :: old(context.users)[k].email != request.email)
              && (forall k | k in context.roles :: context.roles[k].name != request.role)
              ==> r == ErrorResponseOf(RoleNotFound)
      ensures (forall k | k in old(context.users) :: old(context.users)[k].email != request.email) ==>
        forall k | k in context.roles && context.roles[k].name == request.role ::
          var id := old(context.nextUserId);
          var u := User(id, request.email, request.firstName, request.lastName,
                        HashPassword(request.password), k, now);
          && id !in old(context.users)
          && context.users == old(context.users)[id := u]
          && context.nextUserId == id + 1
          && r == SuccessResponseOf(AuthResponse(generateToken(u), Profile(u, context.roles[k].name)), Registered)
    {
      if exists k | k in context.users :: context.users[k].email == request.email {
        return ErrorResponseOf(EmailTaken);
      }
      if k :| k in context.roles && context.roles[k].name == request.role {
        var role := context.roles[k];
        var user := User(context.nextUserId, request.email, request.firstName, request.lastName,
                         HashPassword(request.password), role.id, now);
        context.users := context.users[user.id := user];
        context.nextUserId := context.nextUserId + 1;
        var token := generateToken(user);
        r := SuccessResponseOf(AuthResponse(token, Profile(user, role.name)), Registered);
      } else {
        r := ErrorResponseOf(RoleNotFound);
      }
    }

    /** `ChangePasswordAsync`: acts on `request.UserId`, whoever the caller is. */
    method ChangePassword(request: ChangePasswordRequest) returns (r: Response)
      requires context.Valid()
      modifies context`users
      ensures context.Valid()
      ensures request.userId !in old(context.users) ==>
        r == ErrorResponse(UserNotFound) && context.users == old(context.users)
      ensures && request.userId in old(context.users)
              && !VerifyPassword(request.currentPassword, old(context.users)[request.userId].passwordHash)
              ==> r == ErrorResponse(WrongCurrentPassword) && context.users == old(context.users)
      ensures && request.userId in old(context.users)
              && VerifyPassword(request.currentPassword, old(context.users)[request.userId].passwordHash)
              ==> (&& r == SuccessResponse(PasswordChanged)
                   && context.users == old(context.users)[request.userId :=
                        old(context.users)[request.userId].(passwordHash := HashPassword(request.newPassword))])
    {
      if request.userId !in context.users {
        return ErrorResponse(UserNotFound);
      }
      var user := context.users[request.userId];
      if !VerifyPassword(request.currentPassword, user.passwordHash) {
        return ErrorResponse(WrongCurrentPassword);
      }
      context.users := context.users[request.userId := user.(passwordHash := HashPassword(request.newPassword))];
      r := SuccessResponse(PasswordChanged);
    }

    /** `GetRolesAsync`: every role as (id, name). */
    function GetRoles(): (r: Envelope<seq<RoleResponse>>)
      reads context
      ensures r.success && r.message == RolesLoaded && r.data.Some?
      ensures |r.data.value| == |context.roles|
      ensures forall x :: x in r.data.value <==> exists role :: role in context.roles.Values && x == RoleView(role)
    {
      var rows := Rows(context.roles);
      var views := Select(rows, RoleView);
      forall x ensures x in views <==> exists role :: role in context.roles.Values && x == RoleView(role) {
        SelectMembers(rows, RoleView, x);
      }
      SuccessResponseOf(views, RolesLoaded)
    }

    /** `GetUserByIdAsync`: the user whose `Id` is `userId`, if any. */
    function GetUserById(userId: int): (r: Option<User>)
      reads context
      requires context.Valid()
      ensures r.Some? <==> exists u :: u in context.users.Values && u.id == userId
      ensures r.Some? ==> r.value in context.users.Values && r.value.id == userId
    {
      if userId in context.users then Some(context.users[userId])
      else
        UserIdsAreKeys(context.users);
        None
    }
  }
}
