/** The login decision: an ordered chain of checks over the employee and
    password stores, which it only reads, followed by issuing a token. */
module AuthServices {
  import opened Wrappers
  import opened Text
  import opened ErrorCodes
  import opened Envelopes
  import opened Claims
  import opened JwtTokens
  import opened Entities
  import UserServices
  import EmployeeDtos

  datatype LoginRequest = LoginRequest(email: string, password: string)

  datatype LoginResponse = LoginResponse(token: Token, tokenType: string, expiresIn: int, user: EmployeeDto)

  const BearerTokenType: string := "Bearer"
  /** The role name used for a user whose role has no name. */
  const DefaultRoleName: string := "Employee"

  const BadCredentials: ErrorResponse := FromErrorCode(Auth(InvalidCredentials))

  predicate IsLeast(m: Int32, s: set<Int32>) {
    m in s && forall y :: y in s ==> m <= y
  }

  /** Every non-empty set of ids has a least element. */
  lemma {:induction false} HasLeast(s: set<Int32>)
    requires s != {}
    ensures exists m :: IsLeast(m, s)
    decreases |s|
  {
    var x :| x in s;
    if s == {x} {
      assert IsLeast(x, s);
    } else {
      var rest := s - {x};
      assert |rest| < |s|;
      HasLeast(rest);
      var m :| IsLeast(m, rest);
      if x < m {
        forall y | y in s ensures x <= y {
          if y != x { assert y in rest; }
        }
        assert IsLeast(x, s);
      } else {
        forall y | y in s ensures m <= y {
          if y != x { assert y in rest; }
        }
        assert IsLeast(m, s);
      }
    }
  }

  function Least(s: set<Int32>): (m: Int32)
    requires s != {}
    ensures IsLeast(m, s)
  {
    HasLeast(s);
    var m :| IsLeast(m, s);
    m
  }

  /** A row the repository's reads return: they join the employee with its
      role, so a row whose role id names no role is never read back. */
  predicate Joined(employees: map<Int32, EmployeeRow>, roles: seq<Role>, id: Int32) {
    id in employees && FindRole(roles, employees[id].roleId).Some?
  }

  /** `GetByEmailAsync`: the id of the employee with this email whose role
      exists. Emails are unique in a valid store; should several rows match,
      the one with the least id is taken. */
  function FindByEmail(employees: map<Int32, EmployeeRow>, roles: seq<Role>, email: string): (r: Option<Int32>)
    ensures r.None? <==> forall id :: Joined(employees, roles, id) ==> employees[id].email != email
    ensures r.Some? ==> Joined(employees, roles, r.value) && employees[r.value].email == email
    ensures UniqueEmails(employees) && r.Some? ==>
              forall id :: id in employees && employees[id].email == email ==> id == r.value
  {
    var matching := set id | id in employees && employees[id].email == email && FindRole(roles, employees[id].roleId).Some?;
    assert forall id :: Joined(employees, roles, id) && employees[id].email == email ==> id in matching;
    if matching == {} then None else Some(Least(matching))
  }

  /** `LoginAsync`. `hashPassword` is the password hasher, `now` and `jti`
      the issue instant and the token id; a failure to issue the token is the
      exception the service catches. */
  function Login(request: LoginRequest, employees: map<Int32, EmployeeRow>, roles: seq<Role>,
                 passwords: map<Int32, PasswordRecord>, hashPassword: string -> string,
                 settings: JwtSettings, now: int, jti: string)
    : (r: Result<LoginResponse, ErrorResponse>)
    ensures r.Success? ==>
              && FindByEmail(employees, roles, request.email).Some?
              && var id := FindByEmail(employees, roles, request.email).value;
                 && employees[id].isActive && id in passwords
                 && EqualsIgnoreCase(hashPassword(request.password), passwords[id].passwordHash)
                 && r.value.user.id == id && r.value.user.email == request.email
                 && r.value.tokenType == BearerTokenType
    ensures r.Failure? ==> !r.error.success && r.error.statusCode in {401, 403, 500}
  {
    match FindByEmail(employees, roles, request.email)
    case None => Failure(BadCredentials)
    case Some(id) =>
      var user := JoinEmployee(employees, roles, id);
      if !user.isActive then Failure(FromErrorCode(ErrorCode.Employee(UserInactive)))
      else if id !in passwords then Failure(FromErrorCode(Common(InternalServerError)))
      else if !EqualsIgnoreCase(hashPassword(request.password), passwords[id].passwordHash) then Failure(BadCredentials)
      else
        var roleName := user.roleName.GetOr(DefaultRoleName);
        match GenerateToken(settings, user.id, user.email, roleName, now, jti)
        case Failure(e) => Failure(FromErrorCode(Common(InternalServerError), Some(ErrorMessage(e))))
        case Success(token) =>
          var expiresIn := GetExpirationSeconds(settings).value;
          Success(LoginResponse(token, BearerTokenType, expiresIn,
            EmployeeDto(user.id, user.email, user.name, user.address, user.cellNumber, user.roleId, roleName, user.isActive)))
  }

  /** An unknown email is refused with InvalidCredentials. */
  lemma UnknownEmailRefused(request: LoginRequest, employees: map<Int32, EmployeeRow>, roles: seq<Role>,
                            passwords: map<Int32, PasswordRecord>, hashPassword: string -> string,
                            settings: JwtSettings, now: int, jti: string)
    requires forall id :: id in employees ==> employees[id].email != request.email
    ensures Login(request, employees, roles, passwords, hashPassword, settings, now, jti) == Failure(BadCredentials)
    ensures BadCredentials.statusCode == 401
  {
  }

  /** A wrong password gets exactly the answer an unknown email gets. */
  lemma WrongPasswordLooksLikeUnknownEmail(request: LoginRequest, employees: map<Int32, EmployeeRow>, roles: seq<Role>,
                                           passwords: map<Int32, PasswordRecord>, hashPassword: string -> string,
                                           settings: JwtSettings, now: int, jti: string)
    requires FindByEmail(employees, roles, request.email).Some?
    requires var id := FindByEmail(employees, roles, request.email).value;
             employees[id].isActive && id in passwords
             && !EqualsIgnoreCase(hashPassword(request.password), passwords[id].passwordHash)
    ensures Login(request, employees, roles, passwords, hashPassword, settings, now, jti)
            == Login(request, map[], roles, passwords, hashPassword, settings, now, jti)
  {
  }

  /** An inactive account is refused with UserInactive whatever password is
      supplied, and whether or not it has a password record. */
  lemma InactiveBeforePassword(request: LoginRequest, otherPassword: string, employees: map<Int32, EmployeeRow>,
                               roles: seq<Role>, passwords: map<Int32, PasswordRecord>, hashPassword: string -> string,
                               settings: JwtSettings, now: int, jti: string)
    requires FindByEmail(employees, roles, request.email).Some?
    requires !employees[FindByEmail(employees, roles, request.email).value].isActive
    ensures Login(request, employees, roles, passwords, hashPassword, settings, now, jti)
            == Failure(FromErrorCode(ErrorCode.Employee(UserInactive)))
    ensures Login(request.(password := otherPassword), employees, roles, map[], hashPassword, settings, now, jti)
            == Failure(FromErrorCode(ErrorCode.Employee(UserInactive)))
  {
  }

  /** An active user without a password record gets InternalServerError
      without details. */
  lemma MissingPasswordRecord(request: LoginRequest, employees: map<Int32, EmployeeRow>, roles: seq<Role>,
                              passwords: map<Int32, PasswordRecord>, hashPassword: string -> string,
                              settings: JwtSettings, now: int, jti: string)
    requires FindByEmail(employees, roles, request.email).Some?
    requires var id := FindByEmail(employees, roles, request.email).value; employees[id].isActive && id !in passwords
    ensures Login(request, employees, roles, passwords, hashPassword, settings, now, jti)
            == Failure(FromErrorCode(Common(InternalServerError)))
  {
  }

  /** Stored digests are compared ignoring letter case: a record holding the
      upper-cased digest logs in exactly as one holding the digest itself. */
  lemma DigestCaseIgnored(request: LoginRequest, employees: map<Int32, EmployeeRow>, roles: seq<Role>,
                          passwords: map<Int32, PasswordRecord>, hashPassword: string -> string,
                          settings: JwtSettings, now: int, jti: string, id: Int32, salt: Option<string>)
    requires FindByEmail(employees, roles, request.email) == Some(id)
    ensures var digest := hashPassword(request.password);
            Login(request, employees, roles, passwords[id := PasswordRecord(UpperAscii(digest), salt)], hashPassword, settings, now, jti)
            == Login(request, employees, roles, passwords[id := PasswordRecord(digest, salt)], hashPassword, settings, now, jti)
  {
    var digest := hashPassword(request.password);
    EqualsIgnoreCaseProperties(digest, digest, digest);
  }

  /** A successful login issues the token for the user's id, email and role
      name (or "Employee"), advertises the lifetime GetExpirationSeconds
      reports, and returns the user's fields. */
  lemma LoginSuccess(request: LoginRequest, employees: map<Int32, EmployeeRow>, roles: seq<Role>,
                     passwords: map<Int32, PasswordRecord>, hashPassword: string -> string,
                     settings: JwtSettings, now: int, jti: string)
    requires Login(request, employees, roles, passwords, hashPassword, settings, now, jti).Success?
    ensures var id := FindByEmail(employees, roles, request.email).value;
            var user := JoinEmployee(employees, roles, id);
            var roleName := user.roleName.GetOr(DefaultRoleName);
            var response := Login(request, employees, roles, passwords, hashPassword, settings, now, jti).value;
            && GenerateToken(settings, id, user.email, roleName, now, jti) == Success(response.token)
            && GetExpirationSeconds(settings) == Success(response.expiresIn)
            && response.user == UserServices.MapToDto(user).(roleName := roleName)
            && (user.roleName.Some? ==> response.user == UserServices.MapToDto(user))
  {
  }

  /** The token of a successful login names the user and role it was issued
      for when read back. */
  lemma LoginTokenReadsBack(request: LoginRequest, employees: map<Int32, EmployeeRow>, roles: seq<Role>,
                            passwords: map<Int32, PasswordRecord>, hashPassword: string -> string,
                            settings: JwtSettings, now: int, jti: string)
    requires Login(request, employees, roles, passwords, hashPassword, settings, now, jti).Success?
    ensures var response := Login(request, employees, roles, passwords, hashPassword, settings, now, jti).value;
            && GetUserIdFromToken(Some(response.token.claims)) == Some(response.user.id as int)
            && GetRoleFromToken(Some(response.token.claims)) == Some(response.user.roleName)
  {
    var id := FindByEmail(employees, roles, request.email).value;
    var user := JoinEmployee(employees, roles, id);
    TokenRoundTrip(settings, id, user.email, user.roleName.GetOr(DefaultRoleName), now, jti);
  }

  /** When the token cannot be issued (no secret key, or a minutes setting
      that `int.Parse` rejects) the login fails with InternalServerError
      carrying the exception's message, never a success. */
  lemma TokenFailureIsInternalError(request: LoginRequest, employees: map<Int32, EmployeeRow>, roles: seq<Role>,
                                    passwords: map<Int32, PasswordRecord>, hashPassword: string -> string,
                                    settings: JwtSettings, now: int, jti: string)
    requires FindByEmail(employees, roles, request.email).Some?
    requires var id := FindByEmail(employees, roles, request.email).value;
             employees[id].isActive && id in passwords
             && EqualsIgnoreCase(hashPassword(request.password), passwords[id].passwordHash)
    requires settings.secretKey.None? || ExpirationMinutes(settings).Failure?
    ensures var id := FindByEmail(employees, roles, request.email).value;
            var user := JoinEmployee(employees, roles, id);
            var issued := GenerateToken(settings, id, user.email, user.roleName.GetOr(DefaultRoleName), now, jti);
            && issued.Failure?
            && Login(request, employees, roles, passwords, hashPassword, settings, now, jti)
               == Failure(FromErrorCode(Common(InternalServerError), Some(ErrorMessage(issued.error))))
    ensures settings.secretKey.None? ==>
              Login(request, employees, roles, passwords, hashPassword, settings, now, jti)
              == Failure(FromErrorCode(Common(InternalServerError), Some(SecretKeyMissingMessage)))
    ensures settings.secretKey.Some? ==>
              Login(request, employees, roles, passwords, hashPassword, settings, now, jti)
              == Failure(FromErrorCode(Common(InternalServerError), Some(NotAnIntMessage)))
  {
  }

  /** Correct credentials log in: a user the lookup finds, active, with a
      password record whose digest equals the supplied password's ignoring
      case, under a configuration that can issue tokens, gets a token and
      its own DTO. */
  lemma LoginSucceeds(request: LoginRequest, employees: map<Int32, EmployeeRow>, roles: seq<Role>,
                      passwords: map<Int32, PasswordRecord>, hashPassword: string -> string,
                      settings: JwtSettings, now: int, jti: string)
    requires FindByEmail(employees, roles, request.email).Some?
    requires var id := FindByEmail(employees, roles, request.email).value;
             employees[id].isActive && id in passwords
             && EqualsIgnoreCase(hashPassword(request.password), passwords[id].passwordHash)
    requires settings.secretKey.Some? && ExpirationMinutes(settings).Success?
    ensures var r := Login(request, employees, roles, passwords, hashPassword, settings, now, jti);
            var id := FindByEmail(employees, roles, request.email).value;
            r.Success? && r.value.user == UserServices.EmployeeDtoOf(employees, roles, id)
  {
  }

  /** The repository's read joins the role, so an employee whose role id
      names no role is not found: the login is refused as an unknown email. */
  lemma RoleLessEmployeeUnknown(request: LoginRequest, id: Int32, employees: map<Int32, EmployeeRow>, roles: seq<Role>,
                                passwords: map<Int32, PasswordRecord>, hashPassword: string -> string,
                                settings: JwtSettings, now: int, jti: string)
    requires UniqueEmails(employees)
    requires id in employees && employees[id].email == request.email && FindRole(roles, employees[id].roleId).None?
    ensures Login(request, employees, roles, passwords, hashPassword, settings, now, jti) == Failure(BadCredentials)
  {
  }

  /** An employee created with a password can log in with it, given a token
      configuration that can issue tokens. */
  lemma LoginAfterCreate(dto: EmployeeDtos.CreateEmployeeDto, id: Int32, employees: map<Int32, EmployeeRow>,
                         roles: seq<Role>, passwords: map<Int32, PasswordRecord>, hashPassword: string -> string,
                         settings: JwtSettings, now: int, jti: string)
    requires UniqueEmails(employees)
    requires id in employees && employees[id] == UserServices.NewEmployeeRow(dto)
    requires id in passwords && passwords[id] == PasswordRecord(hashPassword(dto.password), None)
    requires FindRole(roles, dto.roleId).Some?
    requires settings.secretKey.Some? && ExpirationMinutes(settings).Success?
    ensures var r := Login(LoginRequest(dto.email, dto.password), employees, roles, passwords, hashPassword, settings, now, jti);
            r.Success? && r.value.user.id == id
  {
    var digest := hashPassword(dto.password);
    EqualsIgnoreCaseProperties(digest, digest, digest);
  }

  /** Once an employee is deleted, its email is unknown again. */
  lemma LoginAfterDelete(request: LoginRequest, id: Int32, employees: map<Int32, EmployeeRow>, roles: seq<Role>,
                         passwords: map<Int32, PasswordRecord>, hashPassword: string -> string,
                         settings: JwtSettings, now: int, jti: string)
    requires UniqueEmails(employees)
    requires id in employees && employees[id].email == request.email
    ensures Login(request, employees - {id}, roles, passwords - {id}, hashPassword, settings, now, jti) == Failure(BadCredentials)
  {
  }
}
